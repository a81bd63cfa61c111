# Advent of Code 2023, days 1 to 7, in Dafny

A verified model of the puzzle solvers of the `aoc2023-rust` repository. The
heart of the model is the interval remapping engine of day 5. It has:

- `Range`, a half-open run of values;
- `RangeMap`, which translates a source range onto a target base;
- `normalize`, which sorts ranges and merges touching ones;
- the two drivers `map_value` and `apply_map`, which push one seed, or a range
  of seeds, through the chain of almanac stages.

Around it are the solvers of days 1, 2, 3, 4, 6 and 7.

One module per source file, plus a shared module of string helpers:

- `Text`: the string operations the solvers call (`split`, `trim`, `split_whitespace`, `split_once`, `replace`, `str::parse::<usize>`) on ASCII text.
- `Ranges` (`src/puzzle05.rs`): `Range`, `RangeMap`, the split `apply` as written and corrected, and `normalize` as written and corrected.
- `Almanac` (`src/puzzle05.rs`): `map_value`, `apply_map`, `get_seed_ranges`, `parse_seeds`, `parse_map` and the minimum loops of `analyze`.
- `Trebuchet` (`src/puzzle01.rs`): digit extraction, spelled-number replacement in both directions, and `sum_lines`.
- `CubeGame` (`src/puzzle02.rs`): `analyse_line` in limit and power mode, and `calculate_lines`.
- `GearRatios` (`src/puzzle03.rs`): digit runs, symbols, `has_symbol_in_range` with its gear side effect, and `analyze`.
- `Scratchcards` (`src/puzzle04.rs`): `parse_line`, the copy store of `fetch_copies` (a class), and `analyze`.
- `BoatRace` (`src/puzzle06.rs`): the distance formula, win counts and their product, and `parse_numbers`.
- `CamelCards` (`src/puzzle07.rs`): `compare_cards`, `Hand::from`, `Hand::rank`, `Hand::cmp` and `analyze`.

The model keeps the form of the source:

- Loops become methods with invariants, proved equal to a specification function.
- Pure code becomes functions and lemmas.
- The copy list of day 4, which `fetch_copies` changes in place, is a class.
- The symbol rows of day 3, whose `gears` `has_symbol_in_range` pushes onto, are arrays.
- A Rust `unwrap` that panics is a `None` result, or a `Panicked` verdict on day 2.

Day 5 has two engines: the split and merge as written, and corrected ones. The
specification functions take a `fixed` flag that picks one. The methods that
model the source (`Normalize`, `ApplyMap`, `Analyze`) run the engine as
written. The corrected engine is proved to compute the true minimum location
(`Almanac.LowestFromFixed`).

## Model

| member | source | states |
|---|---|---|
| `Text.DigitChar` | src/puzzle01.rs:72 | `(number + 1).to_string()` for a single digit: a digit character carrying that value |
| `Text.ParseNat` | src/puzzle05.rs:124 | `parse::<usize>` succeeds iff the text is digits, optionally after one '+' |
| `Text.ParseAll` | src/puzzle05.rs:123-125 | parsing a list succeeds iff every element parses, and gives their values in order |
| `Text.Split` | src/puzzle02.rs:30-41 | `split` gives at least one piece, and no piece holds the separator |
| `Text.JoinSplit` | src/puzzle02.rs:30-41 | joining the pieces with the separator gives the text back: nothing is lost |
| `Text.Words` | src/puzzle05.rs:109 | `split_whitespace` gives non-empty words without whitespace, the first starting the text when it does not start blank |
| `Text.WordsJoin` | src/puzzle05.rs:109 | words joined by single spaces split back into the same words |
| `Text.WordsSkip` | src/puzzle05.rs:109 | leading whitespace adds no word |
| `Text.WordsNoWhitespace` | src/puzzle06.rs:32-34 | text without whitespace is one word, or none when empty |
| `Text.TrimStart` | src/puzzle02.rs:30 | trimming the start leaves a suffix that does not start blank |
| `Text.TrimEnd` | src/puzzle02.rs:30 | trimming the end leaves a prefix that does not end blank |
| `Text.SplitOnceWhitespace` | src/puzzle06.rs:29 | None iff there is no whitespace; otherwise the head has none, and head, separator and rest rebuild the text |
| `Text.SplitOnceLead` | src/puzzle06.rs:29 | the split is at the first whitespace character |
| `Text.Remove` | src/puzzle06.rs:32 | `replace(" ", "")` removes every space and keeps every other character as often as it occurs |
| `Text.RemoveAppend` | src/puzzle06.rs:32 | removing the spaces of two joined texts removes them from each part |
| `Text.SplitNone` | src/puzzle02.rs:30-41 | text without the separator splits into itself alone |
| `Text.SplitFirst` | src/puzzle02.rs:30-41 | the first piece ends at the first separator, and the rest splits on its own |
| `Text.TrimSolid` | src/puzzle04.rs:61-62 | `trim` keeps text that starts and ends with something other than whitespace |
| `Text.TrimLead` | src/puzzle04.rs:63 | a leading whitespace character is trimmed away |
| `Text.ColonHalves` | src/puzzle02.rs:29-30 | a line "heading: rest" with solid parts trims to itself and splits at ':' into the heading and " " + rest, as `analyse_line` and `parse_line` (src/puzzle04.rs:61-62) split it |
| `Text.TrimTrail` | src/puzzle04.rs:74 | a trailing whitespace character after a non-blank start is trimmed away |
| `Text.WordsPair` | src/puzzle07.rs:26 | two words joined by a space split back into those two words |
| `Text.ParseDigits` | src/puzzle07.rs:28 | digits without a sign parse to their decimal value |
| `Text.DigitsSnoc` | src/puzzle06.rs:34 | one more digit multiplies the decimal value by ten and adds the digit |
| `Ranges.End` | src/puzzle05.rs:138-140 | the end of a non-empty range is its last value: it is contained and the next one is not |
| `Ranges.ContainsInterval` | src/puzzle05.rs:142-144 | a range holds exactly the values from its start to its end, and nothing when it is empty |
| `Ranges.EdgesOneWay` | src/puzzle05.rs:150-153 | an edge of `other` inside `r` means a shared value; a shared value without such an edge means `other` reaches past both ends of `r` |
| `Ranges.OverlapsIffShared` | src/puzzle05.rs:146-153 | testing the four edges is exact: two non-empty ranges overlap iff they share a value, and `overlaps` is symmetric |
| `Ranges.OverlapsExamples` | src/puzzle05.rs:294-315 | (2,3) does not overlap (0,2) or (5,2), and overlaps (1,2), (4,2), (1,5) and (2,4) |
| `Ranges.Offset` | src/puzzle05.rs:155-161 | `offset` is Some exactly for contained values, and start plus offset gives the value back |
| `Ranges.Get` | src/puzzle05.rs:175-178 | a contained value lands in the target range, at the same distance from the target as from the source start |
| `Ranges.GetInjective` | src/puzzle05.rs:175-182 | on the values a map holds, `get` sends different values to different targets |
| `Ranges.MapExample` | src/puzzle05.rs:279-291 | map (2,3)->7 holds 2, 3 and 4 but not 1 or 5, and sends them to 7, 8 and 9 |
| `Ranges.Apply` | src/puzzle05.rs:184-221 | the split as written yields non-empty parts, one to three of them, and every mapped part lies inside the target range |
| `Ranges.ApplyFixed` | src/puzzle05.rs:194-210 | the corrected split has the same shape guarantees as `Apply` |
| `Ranges.ApplyWith` | src/puzzle05.rs:184-221 | choosing the engine by flag preserves the shape guarantees |
| `Ranges.PartitionLaw` | src/puzzle05.rs:184-221 | around the overlap, the values of a range split into a prefix and a suffix left alone and one translated interval |
| `Ranges.ApplyAgreesWithFixed` | src/puzzle05.rs:184-221 | the split as written equals the corrected one except in the start-inside case and in the domain-inside case with unequal prefix and suffix |
| `Ranges.ApplyPartitions` | src/puzzle05.rs:184-221 | outside those two cases, the split as written loses and duplicates no value |
| `Ranges.DisjointLaw` | src/puzzle05.rs:216-219 | a range the domain does not touch stays whole and unmapped |
| `Ranges.TailInsideLaw` | src/puzzle05.rs:186-193 | start outside and end inside: the split is exact (the coverage law holds) |
| `Ranges.WithinLaw` | src/puzzle05.rs:211-215 | a range inside the domain is translated whole |
| `Ranges.HeadInsideLaw` | src/puzzle05.rs:194-201 | the corrected start-inside split satisfies the coverage law |
| `Ranges.DomainInsideLaw` | src/puzzle05.rs:202-210 | the corrected domain-inside split satisfies the coverage law |
| `Ranges.ApplyHeadInsideShifted` | src/puzzle05.rs:194-201 | as written, sizes add up but the unmapped part starts one too low: it holds the domain's last value and misses the range's last value |
| `Ranges.ApplyDomainInsideSuffix` | src/puzzle05.rs:202-210 | as written, the suffix gets the prefix's length, so values are lost when the suffix is longer and invented when it is shorter |
| `Ranges.ApplyBelowRange` | src/puzzle05.rs:317-323 | a range below the domain comes back unchanged and unmapped |
| `Ranges.ApplyAboveRange` | src/puzzle05.rs:325-331 | a range above the domain comes back unchanged and unmapped |
| `Ranges.ApplyOverlappingBelow` | src/puzzle05.rs:333-347 | the two tests of a range overlapping the domain from below give the pinned parts |
| `Ranges.ApplyOverlappingAbove` | src/puzzle05.rs:357-363 | the second test of a range overlapping from above gives the pinned (4,3) and (11,2) |
| `Ranges.ApplyOverlappingFully` | src/puzzle05.rs:365-376 | the symmetric domain-inside test gives prefix (0,2), suffix (5,2), mapped (10,3) |
| `Ranges.ApplyInside` | src/puzzle05.rs:378-387 | a range inside the domain maps whole to (10,2) |
| `Ranges.ApplyHeadInsideCounterexample` | src/puzzle05.rs:349-355 | the pinned output ([(4,2)], [(10,3)]) on (2,5), against the corrected ([(5,2)], [(10,3)]) |
| `Ranges.ApplyDomainInsideCounterexample` | src/puzzle05.rs:202-210 | on (0,8) the suffix as written is (5,2), losing the value 7; corrected it is (5,3) |
| `Ranges.InsertByStartPermutes` | src/puzzle05.rs:226 | inserting a range into the sorted list adds exactly that range (multiset) |
| `Ranges.InsertByStartSorted` | src/puzzle05.rs:226 | inserting keeps the list sorted by start |
| `Ranges.SortByStart` | src/puzzle05.rs:226 | the sort returns a permutation of its input, sorted by start |
| `Ranges.Absorb` | src/puzzle05.rs:237-239 | the merged range is non-empty, keeps the current start and ends where the next range ends |
| `Ranges.AbsorbCovers` | src/puzzle05.rs:237-239 | the merge as written keeps every value of the pair exactly when the next range does not end before the current one |
| `Ranges.MergeFrom` | src/puzzle05.rs:232-247 | the merge scan emits non-empty ranges, separated by gaps, in increasing order of start |
| `Ranges.Normalized` | src/puzzle05.rs:224-248 | `normalize` returns non-empty, sorted, separated ranges, and nothing exactly for empty input |
| `Ranges.Normalize` | src/puzzle05.rs:224-248 | the method calls the functional sort `SortByStart`, then the scan loop `MergeScan`, and returns what `Normalized` as written specifies |
| `Ranges.MergeScan` | src/puzzle05.rs:232-247 | the loop with `current` and `updated` produces exactly the merge scan |
| `Ranges.MergeFromStep` | src/puzzle05.rs:236-244 | one turn of the loop: a next range that starts at most one past the current end extends it, any other closes it |
| `Ranges.MergeFromGap` | src/puzzle05.rs:240-243 | a range starting past the current end plus one pushes the current range |
| `Ranges.SpanPermutation` | src/puzzle05.rs:226 | the values held by a list of ranges do not depend on their order |
| `Ranges.MergeFromFixedSpan` | src/puzzle05.rs:232-247 | the corrected merge keeps exactly the values of the ranges it scans |
| `Ranges.NormalizedFixedCovers` | src/puzzle05.rs:224-248 | corrected `normalize` represents exactly the values of its input |
| `Ranges.NormalizedLowest` | src/puzzle05.rs:224-248 | both merges keep the lowest start in front |
| `Ranges.NormalizedFixedMinimum` | src/puzzle05.rs:224-248 | with the corrected merge the first start is the smallest value held |
| `Ranges.SortSortedIdentity` | src/puzzle05.rs:226 | the stable sort leaves a list sorted by start unchanged |
| `Ranges.MergeSeparatedIdentity` | src/puzzle05.rs:232-247 | the merge scan leaves separated, sorted ranges unchanged |
| `Ranges.NormalizedSeparated` | src/puzzle05.rs:224-248 | ranges already separated and in order come out unchanged |
| `Ranges.NormalizedIdempotent` | src/puzzle05.rs:224-248 | `normalize` of its own output changes nothing, in both engines |
| `Ranges.NormalizeNeighbours` | src/puzzle05.rs:254-264 | empty gives empty; (0,2) and (2,2) merge into (0,4) |
| `Ranges.NormalizeKeepsGaps` | src/puzzle05.rs:266-277 | (0,2) and (3,2) stay apart |
| `Ranges.NormalizeShrinksCounterexample` | src/puzzle05.rs:238 | (0,10) and (2,2) become (0,4) as written, which no longer holds the value 5; corrected they give (0,10) |
| `Ranges.NormalizeOrderMatters` | src/puzzle05.rs:226-239 | with equal starts the input order decides the merged end as written: (0,10),(0,3) gives (0,3) |
| `Ranges.NormalizeOrderMattersSwapped` | src/puzzle05.rs:226-239 | and (0,3),(0,10) gives (0,10) |
| `Almanac.StageValue` | src/puzzle05.rs:97-103 | in one stage, the first map holding the value translates it; a value no map holds passes unchanged |
| `Almanac.MapValue` | src/puzzle05.rs:95-106 | `map_value` returns the value pushed through every stage, each stage taking its first holder |
| `Almanac.ApplyEach` | src/puzzle05.rs:68-72 | splitting a worklist by one map keeps every part non-empty and yields between one and three parts per range |
| `Almanac.StepMap` | src/puzzle05.rs:64-73 | one map step keeps the worklists non-empty when they were not both empty |
| `Almanac.RunMaps` | src/puzzle05.rs:64-73 | one stage keeps the worklists non-empty when they were not both empty |
| `Almanac.RunStages` | src/puzzle05.rs:60-75 | the whole chain keeps the worklists non-empty, so the final `range_queue[0]` exists |
| `Almanac.SplitRanges` | src/puzzle05.rs:68-72 | the inner loop computes the split of the whole worklist as written |
| `Almanac.RunStage` | src/puzzle05.rs:64-73 | the loop over one stage's maps computes that stage as written |
| `Almanac.RunMapsStep` | src/puzzle05.rs:64-73 | a stage is its first map step, then the remaining maps |
| `Almanac.RunStagesStep` | src/puzzle05.rs:60-62 | a chain is its first stage, started with the two worklists joined, then the rest |
| `Almanac.ApplyMap` | src/puzzle05.rs:56-79 | `apply_map` returns the first start after the final normalize of the chain as written |
| `Almanac.ApplyPoint` | src/puzzle05.rs:184-221 | a one-value range is translated whole or left whole, by either split |
| `Almanac.RunMapsIdle` | src/puzzle05.rs:64-73 | with nothing unmapped a stage changes nothing |
| `Almanac.RunMapsPoint` | src/puzzle05.rs:64-73 | a stage takes a one-value worklist to the value `map_value`'s stage gives |
| `Almanac.RunMapsHit` | src/puzzle05.rs:98-101 | once a map has translated the value, later maps of the stage leave it alone (the `break`) |
| `Almanac.RunStagesPoint` | src/puzzle05.rs:60-75 | the chain takes a one-value worklist to the value `map_value` gives |
| `Almanac.PointLowest` | src/puzzle05.rs:56-106 | a seed range of length 1 makes `apply_map` agree with `map_value`, with either engine |
| `Almanac.ApplyEachFixedSpans` | src/puzzle05.rs:68-72 | the corrected split keeps the values outside the domain and translates those inside, nothing lost or added |
| `Almanac.StageImageSplit` | src/puzzle05.rs:64-73 | a stage's image is its first map's image plus the rest of the stage applied to what that map leaves |
| `Almanac.RunMapsFixedImage` | src/puzzle05.rs:64-73 | a corrected stage ends holding exactly the stage's image of its input values |
| `Almanac.RunStagesFixedImage` | src/puzzle05.rs:60-75 | a corrected run ends holding exactly the chain's image of the seed values |
| `Almanac.LowestFromFixed` | src/puzzle05.rs:56-79 | with the corrected engine `apply_map` returns the lowest location of any seed of the range, and some seed reaches it |
| `Almanac.SingleMapChain` | src/puzzle05.rs:56-79 | on one stage of one map, `apply_map` is the first start of the normalized split |
| `Almanac.LowestOfPair` | src/puzzle05.rs:75-78 | when a split yields one kept and one moved range, the answer is the lower start |
| `Almanac.ApplyMapUndershoots` | src/puzzle05.rs:194-201 | as written, map (2,3)->10 on seeds 2..6 answers 4 |
| `Almanac.UndershootLocations` | src/puzzle05.rs:95-106 | yet every seed of 2..6 reaches a location of at least 5, and seed 5 reaches 5 |
| `Almanac.ApplyMapFixedExample` | src/puzzle05.rs:56-79 | the corrected engine answers 5 on the same input |
| `Almanac.SeedRanges` | src/puzzle05.rs:81-93 | the seed list is read as consecutive (start, length) pairs |
| `Almanac.SeedRangesFlatten` | src/puzzle05.rs:81-93 | reading back the flattened pairs gives the ranges |
| `Almanac.FlattenSeedRanges` | src/puzzle05.rs:81-93 | flattening the pairs of an even list gives the list |
| `Almanac.GetSeedRanges` | src/puzzle05.rs:81-93 | the loop that takes two seeds at a time returns exactly the pairs |
| `Almanac.ParseSeeds` | src/puzzle05.rs:108-115 | a line of at most two words adds no seed |
| `Almanac.ParseSeedsWords` | src/puzzle05.rs:108-125 | past the label, the seeds are the words in order, and parsing fails iff some word is not a number |
| `Almanac.ParseMap` | src/puzzle05.rs:117-125 | a line succeeds iff it has three words or more, all numbers; the map goes from the second to the first with the third as size |
| `Almanac.ParseMapDigits` | src/puzzle05.rs:117-121 | a line of words "ab cd e" gives map (cd, e) -> ab |
| `Almanac.ParseMapOf` | src/puzzle05.rs:117-121 | a line of exactly three numbers gives the map from the second and third (start, size) to the first (target) |
| `Almanac.ParseSeedsExample` | src/puzzle05.rs:389-397 | a line with the words of "seeds: 2 5 7" gives the seeds 2, 5, 7 |
| `Almanac.ParseSeedsSingle` | src/puzzle05.rs:110-114 | "seeds: 7" gives no seed at all |
| `Almanac.ParseMapExample` | src/puzzle05.rs:399-409 | a line with the words of "50 98 2" gives map (98,2)->50 |
| `Almanac.LowerStep` | src/puzzle05.rs:40-42 | `if value < min { min = value }` keeps `min` the least value seen, starting from `usize::MAX` |
| `Almanac.SeedLocations` | src/puzzle05.rs:44-51 | the part 1 candidates are the seeds' locations, one per seed |
| `Almanac.RangeLocations` | src/puzzle05.rs:36-43 | the part 2 candidates are `apply_map`'s answers, one per seed range |
| `Almanac.Analyze` | src/puzzle05.rs:35-53 | `analyze` returns the least location over the seeds (part 1) or over the seed ranges (part 2), `usize::MAX` when there are none |
| `Almanac.LowestOverSeeds` | src/puzzle05.rs:44-51 | the part 1 loop returns the least seed location |
| `Almanac.LowestOverRanges` | src/puzzle05.rs:36-43 | the part 2 loop returns the least `apply_map` answer |
| `Trebuchet.NamesAreWords` | src/puzzle01.rs:63 | nine names of three to five lower-case letters |
| `Trebuchet.Digits` | src/puzzle01.rs:26-32 | the digits of the line, none exactly when the line has none |
| `Trebuchet.DigitsFirst` | src/puzzle01.rs:33 | the first of them is the first digit of the line |
| `Trebuchet.DigitsLast` | src/puzzle01.rs:34 | the last of them is the last digit of the line |
| `Trebuchet.TwoDigits` | src/puzzle01.rs:36-38 | two digits read as a number stay below 100 |
| `Trebuchet.Calibration` | src/puzzle01.rs:26-41 | ten times the first digit plus the last one; a lone digit counts twice; no digit gives 0 |
| `Trebuchet.ExtractNumber` | src/puzzle01.rs:18-42 | a line's value is below 100 |
| `Trebuchet.NameFrom` | src/puzzle01.rs:63-77 | the first name in list order spelled at a start, or none of them is |
| `Trebuchet.NameEndingFrom` | src/puzzle01.rs:63-77 | the first name in list order ending at a position, or none of them does |
| `Trebuchet.Splice` | src/puzzle01.rs:68-76 | replacing a name by its digit shortens the line by the name's length less one |
| `Trebuchet.ForwardStop` | src/puzzle01.rs:55-78 | where the left-to-right scan stops, a name is spelled |
| `Trebuchet.ForwardStopHit` | src/puzzle01.rs:55-78 | and it is the first thing the scan meets: no digit and no other name starts before it |
| `Trebuchet.BackwardStop` | src/puzzle01.rs:55-78 | where the right-to-left scan stops, a name ends |
| `Trebuchet.BackwardStopHit` | src/puzzle01.rs:55-78 | and it is the first name end the scan meets: no digit and no other name end after it |
| `Trebuchet.Replacement` | src/puzzle01.rs:55-78 | the replacement, if any, is at a spelled name |
| `Trebuchet.ReplaceNamesShape` | src/puzzle01.rs:68-79 | at most one replacement; the line then changes, shrinks by the name's length less one, and only that name becomes its digit |
| `Trebuchet.ReplaceNames` | src/puzzle01.rs:44-80 | the result is never longer than the line, and equals the line exactly when no replacement is found |
| `Trebuchet.NameSearchStep` | src/puzzle01.rs:64-76 | one round of the inner loop skips a name that cannot fit, finds one spelled in place, and passes over the rest |
| `Trebuchet.FindName` | src/puzzle01.rs:63-77 | the inner loop finds the first name in list order at the position |
| `Trebuchet.StopFromStep` | src/puzzle01.rs:55-78 | the scan at a position: a digit ends it, a found name stops it, otherwise the next position follows |
| `Trebuchet.ReplaceNamesAtStop` | src/puzzle01.rs:68-76 | where the scan stops, the name there is spliced out for its digit |
| `Trebuchet.ReplaceNamesQuiet` | src/puzzle01.rs:55-79 | where the scan does not stop on a name, the line comes back unchanged |
| `Trebuchet.ScanStop` | src/puzzle01.rs:55-78 | the position loop returns where the scan stops, or None at a digit or the end |
| `Trebuchet.ReplaceNumberNames` | src/puzzle01.rs:44-80 | `replace_number_names` returns the specified replacement |
| `Trebuchet.NameNotDigit` | src/puzzle01.rs:58-63 | a spelled name holds no digit |
| `Trebuchet.SpliceChanges` | src/puzzle01.rs:73 | a replacement always changes the line |
| `Trebuchet.ForwardStopNone` | src/puzzle01.rs:55-79 | left to right, nothing is replaced iff every spelled name has a digit before it |
| `Trebuchet.EndsBlockedByDigit` | src/puzzle01.rs:56-61 | a digit blocks every name that ends before it |
| `Trebuchet.EndsBlockedSkip` | src/puzzle01.rs:55-78 | a position that is neither a digit nor a name end changes nothing |
| `Trebuchet.BackwardStopNone` | src/puzzle01.rs:55-79 | right to left, nothing is replaced iff every name end has a digit after it |
| `Trebuchet.NoNamesSameValue` | src/puzzle01.rs:21-24 | a line that spells no name has the same value in both parts |
| `Trebuchet.BackwardKeepsHead` | src/puzzle01.rs:22-23 | the right-to-left pass keeps a leading digit |
| `Trebuchet.LeadingNameCounts` | src/puzzle01.rs:21-41 | a line that starts with a name takes its digit as first digit in part 2, whatever follows |
| `Trebuchet.TotalBound` | src/puzzle01.rs:10-16 | the sum is at most 99 per line |
| `Trebuchet.SumLines` | src/puzzle01.rs:10-16 | the loop returns the sum of the lines' values |
| `Trebuchet.NameFromFinds` | src/puzzle01.rs:63-77 | the search in list order finds a name when no name between is spelled there |
| `Trebuchet.NameEndingFromFinds` | src/puzzle01.rs:63-77 | the same for names ending at a position |
| `Trebuchet.LeadingDigitUnchanged` | src/puzzle01.rs:56-61 | left to right, a line that starts with a digit is unchanged |
| `Trebuchet.TrailingDigitUnchanged` | src/puzzle01.rs:56-61 | right to left, a line that ends with a digit is unchanged |
| `Trebuchet.LeadingName` | src/puzzle01.rs:63-76 | left to right, the first name in list order spelled at the start is replaced |
| `Trebuchet.FirstLetterName` | src/puzzle01.rs:63-76 | a name spelled at the start whose first letter no earlier name shares is replaced |
| `Trebuchet.TrailingStop` | src/puzzle01.rs:55-78 | right to left, the scan stops at once on a name ending at the last character |
| `Trebuchet.TrailingName` | src/puzzle01.rs:63-76 | right to left, that name is replaced and the line ends with its digit |
| `Trebuchet.ExtractTwoDigitsExample` | src/puzzle01.rs:88 | "12" gives 12 |
| `Trebuchet.ExtractLoneDigitExamples` | src/puzzle01.rs:91-94 | "3", "foo3", "foo3bar" and "3bar" give 33 |
| `Trebuchet.ReplaceExamples` | src/puzzle01.rs:114-120 | "two1nine" becomes "21nine"; "1twonine" forward and "1two9" backward are unchanged |
| `Trebuchet.EightFirstWithE` | src/puzzle01.rs:63 | "eight" is the first name starting with 'e' |
| `Trebuchet.ReplaceOverlapExample` | src/puzzle01.rs:116 | "eightwothree" becomes "8wothree" |
| `Trebuchet.ReplaceBackwardExample` | src/puzzle01.rs:118 | "1twonine" backward becomes "1two9" |
| `CubeGame.HeadingPieces` | src/puzzle02.rs:32 | a heading "Game 7" splits at the space into the word and the id |
| `CubeGame.HeaderParts` | src/puzzle02.rs:30-33 | a line "Game id: rounds" gives the id's value and the rounds text |
| `CubeGame.DrawParts` | src/puzzle02.rs:39-41 | an element "count colour", with or without a leading space, gives that count of that colour |
| `CubeGame.RoundDraws` | src/puzzle02.rs:37-41 | each element of a round is parsed as a count and a colour |
| `CubeGame.Groups` | src/puzzle02.rs:33-39 | the rounds split at ';' give their draws, round by round |
| `CubeGame.FlattenAppend` | src/puzzle02.rs:36-38 | the nested loops visit the rounds one after the other |
| `CubeGame.RunStopped` | src/puzzle02.rs:50-56 | once stopped (a panic, or impossible), the scan ignores what follows, malformed or not |
| `CubeGame.RunRest` | src/puzzle02.rs:50-56 | a stop inside a round ends both loops there |
| `CubeGame.RunLimit` | src/puzzle02.rs:42-61 | in limit mode, well-formed draws never panic, and the game is possible iff no draw exceeds the bag |
| `CubeGame.RunLimitStops` | src/puzzle02.rs:42-56 | the first draw over the limit decides the game, even before text that would panic |
| `CubeGame.RunPower` | src/puzzle02.rs:44-49 | in power mode, parsed draws never stop, and the scan ends with the minimal bag: each colour drawn maps to its largest count |
| `CubeGame.RaiseCovers` | src/puzzle02.rs:45-48 | after a draw every count seen is at most its colour's entry |
| `CubeGame.RaiseAttained` | src/puzzle02.rs:45-48 | after a draw every entry is positive and is the count of some draw |
| `CubeGame.MapProductRemove` | src/puzzle02.rs:63-66 | the product can take the colours in any order, as the `HashMap` iteration does |
| `CubeGame.PowerStep` | src/puzzle02.rs:64-65 | multiplying in one more colour keeps the running product equal to the whole |
| `CubeGame.MapProductPositive` | src/puzzle02.rs:63-66 | a product of positive counts is positive |
| `CubeGame.Power` | src/puzzle02.rs:63-66 | the loop returns the product of the minimal bag's counts, 1 when it is empty |
| `CubeGame.RunSnoc` | src/puzzle02.rs:38-53 | the scan of one more element is one more step |
| `CubeGame.ScanGroups` | src/puzzle02.rs:36-57 | the nested loops, with their `break`s, compute the scan of all elements |
| `CubeGame.AnalyseLine` | src/puzzle02.rs:29-69 | `analyse_line` returns the specified verdict: the id or None in limit mode, the power in power mode, or a panic |
| `CubeGame.SumPrefixPanicked` | src/puzzle02.rs:18-27 | a panic on an early line panics the whole sum |
| `CubeGame.SumPanicked` | src/puzzle02.rs:18-27 | the sum panics iff some line panics |
| `CubeGame.SumSnoc` | src/puzzle02.rs:21-24 | one more line adds its value when it is Some, nothing when None |
| `CubeGame.Verdicts` | src/puzzle02.rs:20-21 | one verdict per line |
| `CubeGame.VerdictsPrefix` | src/puzzle02.rs:20-21 | the verdicts of the first lines are the first verdicts |
| `CubeGame.AnalyseNext` | src/puzzle02.rs:21 | `analyse_line` on the next line extends the verdicts |
| `CubeGame.Accumulate` | src/puzzle02.rs:22-24 | the loop body adds the line's value as the sum specifies |
| `CubeGame.CalculateLines` | src/puzzle02.rs:18-27 | `calculate_lines` returns the sum of the Some results, None when a line panics |
| `CubeGame.LimitVerdict` | src/puzzle02.rs:29-61 | a well-formed line returns its id iff no draw exceeds the bag, and None otherwise |
| `CubeGame.PowerVerdict` | src/puzzle02.rs:29-68 | a parsed line returns the product of its minimal bag, which is positive |
| `CubeGame.ExamplePower` | src/puzzle02.rs:105-112 | the minimal bag 4 red, 2 green, 6 blue has power 48 |
| `GearRatios.Extend` | src/puzzle03.rs:75-78 | a digit opens a run or extends the open one |
| `GearRatios.CloseIsRun` | src/puzzle03.rs:87-98 | the run closed at a non-digit or at the end of the row is a maximal digit run with its value |
| `GearRatios.GroupsFromBounds` | src/puzzle03.rs:70-85 | the groups lie within the row, from the open run on |
| `GearRatios.GroupsFromAllRuns` | src/puzzle03.rs:70-85 | every group pushed is a maximal run |
| `GearRatios.GroupsFromOrdered` | src/puzzle03.rs:70-85 | the groups come left to right with gaps between them |
| `GearRatios.GroupsFromCovers` | src/puzzle03.rs:70-85 | every digit lies in some group |
| `GearRatios.RunsAreMaximal` | src/puzzle03.rs:70-85 | `number_groups` returns exactly the maximal digit runs, left to right |
| `GearRatios.RunsIffDigit` | src/puzzle03.rs:70-85 | a row has numbers exactly when it has a digit |
| `GearRatios.RunsStartExample` | src/puzzle03.rs:140-149 | "123......" gives (0,2,123) |
| `GearRatios.RunsInnerExample` | src/puzzle03.rs:151-160 | "....321.." gives (4,6,321) |
| `GearRatios.RunsEndExample` | src/puzzle03.rs:162-171 | "......99" gives (6,7,99) |
| `GearRatios.RunsExample` | src/puzzle03.rs:173-185 | "11.22" gives (0,1,11) and (3,4,22) |
| `GearRatios.CheckEndOfNumber` | src/puzzle03.rs:87-98 | with a run open, it pushes the group ending at `index - 1` and returns None; otherwise it pushes nothing and returns its input |
| `GearRatios.DigitStep` | src/puzzle03.rs:75-78 | a digit keeps every group still to come |
| `GearRatios.EndStep` | src/puzzle03.rs:79-81 | any other character closes the open run, which joins the groups found |
| `GearRatios.NumberGroups` | src/puzzle03.rs:70-85 | the loop returns exactly the maximal runs |
| `GearRatios.SymbolsOf` | src/puzzle03.rs:116-125 | every listed symbol is a character of the row other than a digit or '.', with its column and no gears, in increasing column order |
| `GearRatios.SymbolsComplete` | src/puzzle03.rs:116-125 | every symbol of the row is listed |
| `GearRatios.SymbolLocations` | src/puzzle03.rs:116-125 | the loop returns those symbols |
| `GearRatios.SymbolColumnExample` | src/puzzle03.rs:131-138 | the first symbol of "...*......" is in column 3 |
| `GearRatios.FirstTouching` | src/puzzle03.rs:50-60 | the first symbol whose column lies in the group's range widened by one (clipped at 0), or none touches |
| `GearRatios.Mark` | src/puzzle03.rs:53-59 | only the first touching symbol can change, and only by the group's number pushed onto its gears when it is a '*' |
| `GearRatios.HasSymbolInRange` | src/puzzle03.rs:49-62 | the search over the array answers whether a symbol touches, and the array becomes the marked row |
| `GearRatios.TouchesExamples` | src/puzzle03.rs:187-208 | group (0,2) is touched in columns 0 to 3 but not 5; group (5,7) in 4 to 8 but not 3 or 9 |
| `GearRatios.FirstTouchingColumns` | src/puzzle03.rs:53-54 | the search looks only at the columns |
| `GearRatios.HitIff` | src/puzzle03.rs:23-29 | a group hits iff a symbol in its own or a neighbouring row lies in its range |
| `GearRatios.MarkRowLayout` | src/puzzle03.rs:53-59 | marking a row changes only gears |
| `GearRatios.TouchLayout` | src/puzzle03.rs:23-29 | a visit changes only gears |
| `GearRatios.Marked` | src/puzzle03.rs:17-34 | after the first loop the symbols are the same, gears aside |
| `GearRatios.HitLayout` | src/puzzle03.rs:24-28 | the gears pushed so far do not change any later search |
| `GearRatios.MarkedGears` | src/puzzle03.rs:17-34 | after the first loop each symbol's gears are the numbers of the groups it is the first touching '*' for, in visit order |
| `GearRatios.MarkedGearsStep` | src/puzzle03.rs:23-29 | one more visit adds a number to a symbol iff it is the first touching '*' of a near row |
| `GearRatios.TouchGears` | src/puzzle03.rs:23-29 | the same for one visit on the original table |
| `GearRatios.RowVisits` | src/puzzle03.rs:20 | the visits of a row, one per group, in order |
| `GearRatios.VisitsOf` | src/puzzle03.rs:17-20 | every visit is to a row of the input |
| `GearRatios.SymbolTable` | src/puzzle03.rs:15 | one list of symbols per row |
| `GearRatios.Contents` | src/puzzle03.rs:15 | the rows' arrays read as a table |
| `GearRatios.TouchRow` | src/puzzle03.rs:24-28 | one call on row `r` answers the search and marks that row only |
| `GearRatios.VisitGroup` | src/puzzle03.rs:21-29 | all three calls are evaluated (`|=` does not short-circuit); the answer is whether any hits |
| `GearRatios.VisitSnoc` | src/puzzle03.rs:20-33 | one more visit marks the table once more and adds the number when it hits |
| `GearRatios.SymbolRows` | src/puzzle03.rs:15 | one fresh array per row, holding that row's symbols |
| `GearRatios.VisitStep` | src/puzzle03.rs:21-32 | one group: rows searched and marked; in part 1 its number added when it hits |
| `GearRatios.VisitLine` | src/puzzle03.rs:20-33 | the inner loop over a row's groups |
| `GearRatios.VisitRows` | src/puzzle03.rs:17-34 | the first loop leaves the marked table and the part 1 sum of the numbers that touch a symbol |
| `GearRatios.GearRatios` | src/puzzle03.rs:36-44 | the second loop adds, in part 2 only, the products of the '*'s with exactly two gears |
| `GearRatios.Analyze` | src/puzzle03.rs:12-47 | `analyze` returns the part 1 sum of touching numbers or the part 2 sum of gear ratios, 0 for any other part |
| `GearRatios.VisitsInTable` | src/puzzle03.rs:17-34 | every visit is to a row of the table |
| `Scratchcards.CardLists` | src/puzzle04.rs:63-66 | the trimmed numbers split at '|' into the winning and the drawn list, each of which trims back to itself |
| `Scratchcards.ParseLineParts` | src/puzzle04.rs:60-71 | a line "heading: winning | drawn" gives `(2 ^ m, m)` with `m` the matches of its two lists, and panics exactly when a list does not parse |
| `Scratchcards.MatchesBounds` | src/puzzle04.rs:65-68 | the match count is symmetric and at most the distinct numbers of either side |
| `Scratchcards.MatchesSnoc` | src/puzzle04.rs:65-68 | a repeated drawn number adds nothing; a new winning number adds one match |
| `Scratchcards.Xor` | src/puzzle04.rs:70 | the bitwise exclusive or is at most the sum, has the parity of the sum, and is 0 for equal operands |
| `Scratchcards.Win` | src/puzzle04.rs:70 | `2 ^ copy` is `copy + 2` or `copy - 2`: an exclusive or, not a power of two |
| `Scratchcards.XorOne` | src/puzzle04.rs:70 | `1 ^ m` flips the lowest bit |
| `Scratchcards.XorTwo` | src/puzzle04.rs:70 | `2 ^ copy` adds or takes away 2 |
| `Scratchcards.PointsDouble` | src/puzzle04.rs:70-86 | the intended score is 0 without a match, 1 for one, and doubles with each further match |
| `Scratchcards.WinNeverPoints` | src/puzzle04.rs:70 | `2 ^ copy` differs from the intended score for every match count |
| `Scratchcards.CardOneMatches` | src/puzzle04.rs:83-90 | the first card has 4 matches |
| `Scratchcards.WinCounterexample` | src/puzzle04.rs:70-87 | the first card has 4 matches; `2 ^ 4` is 6 where the test expects 8 points |
| `Scratchcards.CardOneSets` | src/puzzle04.rs:84-87 | the first card's winning and drawn numbers, as sets |
| `Scratchcards.WinFour` | src/puzzle04.rs:70-86 | four matches give 6 by `2 ^ 4`, 8 by the score the test expects |
| `Scratchcards.WinExampleTotal` | src/puzzle04.rs:102 | on the example's match counts both the XOR and the intended score total 13 |
| `Scratchcards.Survivors` | src/puzzle04.rs:42-55 | after a fetch every entry left still has cards to pay for, and none is added |
| `Scratchcards.CopyStore.constructor` | src/puzzle04.rs:15 | the copy list starts empty |
| `Scratchcards.CopyStore.Push` | src/puzzle04.rs:25-28 | `copies.push` appends the entry at the end and keeps the others |
| `Scratchcards.DueAppend` | src/puzzle04.rs:42-55 | what the store pays is the sum over its parts |
| `Scratchcards.SurvivorsAppend` | src/puzzle04.rs:42-55 | the survivors of a store are the survivors of its parts, in order |
| `Scratchcards.CopyStore.Fetch` | src/puzzle04.rs:36-58 | `fetch_copies` returns the weights of the paying entries, steps each once, and removes those that reach 0, keeping order; empty gives 0 |
| `Scratchcards.Sweep` | src/puzzle04.rs:40-57 | the loop with its manual index computes that payment and that store |
| `Scratchcards.Visit` | src/puzzle04.rs:43-51 | one entry: paid if still paying, stepped, removed in place at 0, the index moved past it when kept |
| `Scratchcards.SweepStep` | src/puzzle04.rs:42-55 | visiting the first unprocessed entry sweeps the store one entry further |
| `Scratchcards.FetchStep` | src/puzzle04.rs:42-55 | one more entry processed |
| `Scratchcards.PendingStep` | src/puzzle04.rs:22-28 | a card's entries pay `1 + n` for its next `copy` cards, then vanish |
| `Scratchcards.StoreDue` | src/puzzle04.rs:22 | what card `i` fetches is the instances of the earlier cards whose matches reach it |
| `Scratchcards.StoreStep` | src/puzzle04.rs:22 | a fetch moves the store on to the next card |
| `Scratchcards.PlayStore` | src/puzzle04.rs:21-29 | when the store before card `i - 1` is what the earlier cards still owe and its fetch returns the copies they won of it, the store after pushing its own entries is what the cards up to it still owe |
| `Scratchcards.Extra` | src/puzzle04.rs:22-28 | the copies each card won, by the reference count |
| `Scratchcards.WonPaying` | src/puzzle04.rs:22-28 | the copies of card `i` won are what the store pays it |
| `Scratchcards.PlayCounts` | src/puzzle04.rs:21-29 | the part 2 loop counts each card as often as the reference count says, and its store holds exactly what earlier cards still owe |
| `Scratchcards.PlayTotal` | src/puzzle04.rs:13-34 | the part 2 sum is the total number of cards by the reference count |
| `Scratchcards.ExampleCards` | src/puzzle04.rs:103 | the example's match counts 4, 2, 2, 1, 0, 0 give 30 cards |
| `Scratchcards.ParsedAt` | src/puzzle04.rs:18 | each line is parsed on its own |
| `Scratchcards.CollectPanic` | src/puzzle04.rs:17-18 | a line that panics ends `analyze`, whatever follows |
| `Scratchcards.PlayPrefix` | src/puzzle04.rs:21-29 | part 2 depends only on the cards already played |
| `Scratchcards.NextCard` | src/puzzle04.rs:18 | parsing the next line extends the parsed cards |
| `Scratchcards.PlaySnoc` | src/puzzle04.rs:22-29 | one more card adds `1 +` its fetch to the sum and pushes its own entries after the survivors |
| `Scratchcards.ScorePanicAt` | src/puzzle04.rs:17-18 | a panicking line among the first `n` makes the result None |
| `Scratchcards.ScoreCards` | src/puzzle04.rs:13-34 | parsed cards give the sum of wins (part 1) or the part 2 count |
| `Scratchcards.ScoreCountsInstances` | src/puzzle04.rs:13-34 | part 2 of `analyze` is the reference count of all cards |
| `Scratchcards.Round` | src/puzzle04.rs:22-29 | fetch, then push `(copy, 1)` when `copy > 0` and `(copy, fetched)`: the store and the sum move on as the game says |
| `Scratchcards.Turn` | src/puzzle04.rs:19-30 | the loop body adds the win in part 1, or plays the round otherwise |
| `Scratchcards.Advance` | src/puzzle04.rs:17-31 | one pass parses the line (or panics) and keeps the progress invariant |
| `Scratchcards.Analyze` | src/puzzle04.rs:13-34 | `analyze` returns the specified score, None when a line panics |
| `BoatRace.Distance` | src/puzzle06.rs:37-40 | the boat goes nowhere exactly when it is not charged or is charged for the whole race |
| `BoatRace.WinCount` | src/puzzle06.rs:17-23 | a race has no win exactly when no charging time in `1..t` beats the record |
| `BoatRace.DistanceSymmetric` | src/puzzle06.rs:37-40 | charging for `c` or for `t - c` goes equally far |
| `BoatRace.DistanceGrows` | src/puzzle06.rs:37-40 | the distance grows while charging is below half the race |
| `BoatRace.DistanceBound` | src/puzzle06.rs:37-40 | no charging time goes further than `t * t / 4` |
| `BoatRace.DistanceExamples` | src/puzzle06.rs:46-54 | for t = 7, charging 0 to 5 gives 0, 6, 10, 12, 12, 10 |
| `BoatRace.CountFromSet` | src/puzzle06.rs:19-22 | the filtered count is the number of winning charging times in the interval |
| `BoatRace.WinCountIsWinning` | src/puzzle06.rs:17-23 | a race's count is the number of times in `1..t` that beat the record |
| `BoatRace.WinningSymmetric` | src/puzzle06.rs:19-22 | `c` wins exactly when `t - c` does |
| `BoatRace.WinCountClosedForm` | src/puzzle06.rs:17-23 | the winning times are the interval `lo..=t-lo`, so the count is `t + 1 - 2 lo` |
| `BoatRace.Product` | src/puzzle06.rs:25 | the fold from 1 is zero iff some race has no win |
| `BoatRace.Wins` | src/puzzle06.rs:17-23 | one count per race that `zip` pairs, each the race's win count |
| `BoatRace.ParseNumbers` | src/puzzle06.rs:28-35 | a line without whitespace panics at `split_once` |
| `BoatRace.ParseNumbersLabel` | src/puzzle06.rs:28-35 | the heading and one whitespace are dropped; the words of the rest, spaces removed in part 2, are parsed |
| `BoatRace.JoinedSingleNumber` | src/puzzle06.rs:31-34 | with spaces removed, data without other whitespace is at most one number |
| `BoatRace.Analyze` | src/puzzle06.rs:12-26 | fewer than two lines panic |
| `BoatRace.ExampleRaces` | src/puzzle06.rs:57-62 | the example races have 4, 8 and 9 wins, 288 together |
| `BoatRace.ExampleJoinedRace` | src/puzzle06.rs:63 | the joined race 71530 against 940200 has 71503 wins |
| `CamelCards.FindSpec` | src/puzzle07.rs:151-152 | `find` gives the first position of the card, None when it does not occur |
| `CamelCards.IndexSpec` | src/puzzle07.rs:149-152 | a card's index is its position in "AKQJT98765432" |
| `CamelCards.CompareCards` | src/puzzle07.rs:148-155 | two cards of the alphabet compare Equal exactly when they are the same card |
| `CamelCards.CardOrder` | src/puzzle07.rs:148-155 | card comparison is Equal only for the same card, antisymmetric and transitive |
| `CamelCards.CardExamples` | src/puzzle07.rs:148-155 | A beats K, J beats T, K beats J, Q equals Q |
| `CamelCards.CompareByIndex` | src/puzzle07.rs:154 | comparing cards compares their positions, reversed |
| `CamelCards.DistinctSpec` | src/puzzle07.rs:59-62 | each character of the hand once, and nothing else |
| `CamelCards.Tally` | src/puzzle07.rs:59-62 | one entry per distinct character |
| `CamelCards.SortPerm` | src/puzzle07.rs:64-71 | the sort of `Hand::from` is a permutation |
| `CamelCards.SortOrdered` | src/puzzle07.rs:64-71 | it orders by count descending, then by card descending |
| `CamelCards.GroupsSpec` | src/puzzle07.rs:58-74 | `Hand::from` lists each card of the hand with its true count, in that order |
| `CamelCards.FromHandGroups` | src/puzzle07.rs:58-74 | `Hand::from` keeps the hand text and lists one card per distinct character, with exactly the tally's entries |
| `CamelCards.GroupsExample` | src/puzzle07.rs:161-164 | "32T3K" gives ('3',2), ('K',1), ('T',1), ('2',1) |
| `CamelCards.DistinctFive` | src/puzzle07.rs:59-62 | the distinct cards of any hand of five, added card by card: a card already seen adds nothing, a new one goes at the end |
| `CamelCards.DistinctExample` | src/puzzle07.rs:161-164 | "32T3K" holds the cards 3, 2, T, K |
| `CamelCards.SortExample` | src/puzzle07.rs:161-164 | the sort puts the pair first, then K, T, 2 |
| `CamelCards.Rank` | src/puzzle07.rs:89-131 | the rank is at most 7, five of a kind |
| `CamelCards.Position` | src/puzzle07.rs:93 | `position` finds an entry of the card |
| `CamelCards.Classification` | src/puzzle07.rs:103-130 | the `match` of `rank` picks the kind from the number of groups and the largest group plus the jokers |
| `CamelCards.ClassifySingle` | src/puzzle07.rs:105-108 | one group left and the jokers make five of a kind |
| `CamelCards.ClassifyMany` | src/puzzle07.rs:105-130 | with two groups or more, the kind is told by the variety and the largest group plus jokers |
| `CamelCards.GroupsSum` | src/puzzle07.rs:58-74 | the groups of a dealt hand count its five cards, largest first |
| `CamelCards.JokersFacts` | src/puzzle07.rs:92-101 | removing the 'J' group leaves the other cards, largest first, five with the jokers |
| `CamelCards.RankOf` | src/puzzle07.rs:89-131 | `rank` of a grouped hand is the kind by variety and largest group plus jokers |
| `CamelCards.RankKind` | src/puzzle07.rs:89-131 | `rank` of `Hand::from` of a dealt hand is that kind (7 five of a kind down to 1 high card) |
| `CamelCards.RankHighPair` | src/puzzle07.rs:175-178 | "32T3K" is one pair (2) without jokers |
| `CamelCards.RankFiveJokers` | src/puzzle07.rs:168 | "JJJJJ" is 7 with jokers |
| `CamelCards.RankFourJokers` | src/puzzle07.rs:169 | "AJJJJ" is 7 with jokers |
| `CamelCards.RankThreeJokers` | src/puzzle07.rs:170 | "AKJJJ" is 6 with jokers |
| `CamelCards.RankTwoJokers` | src/puzzle07.rs:171 | "AK3JJ" is 4 with jokers |
| `CamelCards.RankOneJoker` | src/puzzle07.rs:172 | "AK32J" is 2 with jokers |
| `CamelCards.MaxCountJoker` | src/puzzle07.rs:92-103 | without jokers the largest group may be the 'J' group |
| `CamelCards.KindStronger` | src/puzzle07.rs:105-130 | a larger largest group always makes a stronger kind |
| `CamelCards.JokerCounts` | src/puzzle07.rs:92-103 | how the jokers change the number of groups and the largest group |
| `CamelCards.JokerKind` | src/puzzle07.rs:89-131 | the kind with jokers is at least the kind without, the same without a 'J', stronger with a 'J' and another card |
| `CamelCards.JokerStronger` | src/puzzle07.rs:89-131 | so `rank(true)` is at least `rank(false)`, equal without 'J', greater when 'J' and another card are held |
| `CamelCards.Compare` | src/puzzle07.rs:76-87 | `cmp` returns the specified order: ranks first, then the first differing card |
| `CamelCards.CompareNat` | src/puzzle07.rs:77 | `usize::cmp` is Equal iff the numbers are equal, Less iff the first is smaller |
| `CamelCards.LexicographicFlip` | src/puzzle07.rs:79-84 | the card-by-card order is antisymmetric and Equal only for equal hands |
| `CamelCards.LexicographicTransitive` | src/puzzle07.rs:79-84 | the card-by-card order is transitive |
| `CamelCards.HandOrderFlip` | src/puzzle07.rs:76-87 | `cmp` is antisymmetric, Equal only for the same rank and the same cards |
| `CamelCards.HandOrderTransitive` | src/puzzle07.rs:76-87 | `cmp` is transitive |
| `CamelCards.OrderByRank` | src/puzzle07.rs:76-78 | a higher rank wins, whatever the cards |
| `CamelCards.OrderByCards` | src/puzzle07.rs:78-84 | equal ranks are decided card by card |
| `CamelCards.TiePlainTwoPair` | src/puzzle07.rs:79-84 | "KTJJT" loses to "KK677" card by card |
| `CamelCards.TieTensFives` | src/puzzle07.rs:79-84 | "KTJJT" beats "T55J5" card by card |
| `CamelCards.TieQueensFives` | src/puzzle07.rs:79-84 | "QQQJA" beats "T55J5" card by card |
| `CamelCards.TieQueensTens` | src/puzzle07.rs:79-84 | "QQQJA" loses to "KTJJT" card by card |
| `CamelCards.InsertBid` | src/puzzle07.rs:32-34 | inserting adds exactly one bid (multiset) |
| `CamelCards.SortBids` | src/puzzle07.rs:32-34 | the sort is a permutation of the bids |
| `CamelCards.InsertStrongest` | src/puzzle07.rs:32-34 | inserting into a list sorted strongest first keeps it so |
| `CamelCards.SortStrongest` | src/puzzle07.rs:32-34 | the sort puts the bids in order from the strongest hand down |
| `CamelCards.SortSnoc` | src/puzzle07.rs:32-34 | sorting one more bid inserts it into the sorted list |
| `CamelCards.InsertSameHand` | src/puzzle07.rs:32-34 | inserting into a sorted list puts the new bid behind every bid that holds its hand |
| `CamelCards.SortSameHand` | src/puzzle07.rs:32-34 | the sort is stable: bids holding the same hand come out in their input order, which decides who is paid what |
| `CamelCards.Amounts` | src/puzzle07.rs:38-40 | one amount per bid |
| `CamelCards.WinningsRanked` | src/puzzle07.rs:36-42 | paying from the top with a decreasing rank pays each hand its rank counted from the bottom |
| `CamelCards.Payout` | src/puzzle07.rs:36-42 | the loop returns the winnings of the sorted bids |
| `CamelCards.ParseBid` | src/puzzle07.rs:26-29 | a parsed bid holds a dealt hand |
| `CamelCards.ParseBids` | src/puzzle07.rs:25-30 | one bid per line, each with a dealt hand |
| `CamelCards.ParseBidLine` | src/puzzle07.rs:26-29 | a line "hand amount" with a five-card hand gives `Hand::from` of the hand and the amount's value |
| `CamelCards.ParseBidsAll` | src/puzzle07.rs:25-30 | lines that each parse give the list of their bids, in order |
| `CamelCards.ParseBidsPanic` | src/puzzle07.rs:25-30 | a line that does not parse ends `analyze` |
| `CamelCards.Analyze` | src/puzzle07.rs:19-45 | `analyze` returns the winnings of the bids sorted from the strongest hand, jokers wild in part 2 |
| `CamelCards.Total` | src/puzzle07.rs:19-45 | the answer exists exactly when every line parses as a bid |
| `CamelCards.TotalOf` | src/puzzle07.rs:19-45 | parsed lines give the winnings of the bids' amounts in sorted order |
| `CamelCards.Winnings5` | src/puzzle07.rs:36-42 | five sorted bids pay 5, 4, 3, 2 and 1 times their amounts |
| `CamelCards.ExampleParse` | src/puzzle07.rs:182-187 | the five example lines parse into the five example bids |
| `CamelCards.PlainOnePair` | src/puzzle07.rs:182 | "32T3K" has rank 2 without jokers |
| `CamelCards.JokerOnePair` | src/puzzle07.rs:182 | and rank 2 with jokers |
| `CamelCards.PlainFiveFives` | src/puzzle07.rs:183 | "T55J5" has rank 4 without jokers |
| `CamelCards.JokerFiveFives` | src/puzzle07.rs:183 | and rank 6 with jokers |
| `CamelCards.PlainKings` | src/puzzle07.rs:184 | "KK677" has rank 3 without jokers |
| `CamelCards.JokerKings` | src/puzzle07.rs:184 | and rank 3 with jokers |
| `CamelCards.PlainTens` | src/puzzle07.rs:185 | "KTJJT" has rank 3 without jokers |
| `CamelCards.JokerTens` | src/puzzle07.rs:185 | and rank 6 with jokers |
| `CamelCards.PlainQueens` | src/puzzle07.rs:186 | "QQQJA" has rank 4 without jokers |
| `CamelCards.JokerQueens` | src/puzzle07.rs:186 | and rank 6 with jokers |
| `CamelCards.PlainOrder` | src/puzzle07.rs:76-87 | without jokers, the example hands compare as their ranks and cards decide |
| `CamelCards.JokerOrder` | src/puzzle07.rs:76-87 | the same with jokers |
| `CamelCards.SortPlainExample` | src/puzzle07.rs:32-34 | with those orders, the sort without jokers puts the example bids in the order E, B, C, D, A, strongest first |
| `CamelCards.SortJokerExample` | src/puzzle07.rs:32-34 | and with jokers in the order D, E, B, C, A |
| `CamelCards.WinningsPlainExample` | src/puzzle07.rs:182-189 | the example lines give 6440 in part 1 |
| `CamelCards.WinningsJokerExample` | src/puzzle07.rs:182-190 | and 5905 in part 2 |

## Left out

- File reading, line splitting and printing in every `puzzle`, `puzzle_01` and `run` function are I/O and are not modelled.
- Machine integers are unbounded `nat`s. `usize` overflow, and the panic it causes in debug builds, is not modelled. Underflows the source would hit become preconditions: `Range::end` needs a non-empty range, and `calculate_distance` needs `c <= t`.
- Text is ASCII `seq<char>`. Unicode digits of `char::is_numeric`, and the mix of char indices and byte slicing in days 1 and 3, are not modelled.
- `HashMap` and `HashSet` iteration order is not modelled: day 2's product is proved independent of order, and day 4 counts a set intersection. On day 7, `Tally` lists the cards in order of first occurrence, which the sort then makes irrelevant.
- The line loop of day 5's `analyze` (src/puzzle05.rs:16-33), which builds `seeds` and `map_chain` from the text, is not modelled. `Almanac.Analyze` takes the seeds and the chain as parameters. `parse_seeds` and `parse_map` are modelled on their own.
- Almanac.Analyze: requires every map to have a non-empty domain, and in part 2 an even, non-empty seed list with non-empty ranges. The seed list condition is where `get_seed_ranges` panics. The non-empty domains and ranges are a modelling choice: a range of size 0 holds no value, and `Range::end` (src/puzzle05.rs:138-140) is only meaningful for a non-empty range. The source itself goes on with them: part 1's `map_value` only calls `contains` and `get`, and `Range::end` underflows only for a range whose start and size are both 0.
- Almanac.GetSeedRanges: requires an even, non-empty list instead of modelling the `unwrap` panic.
- Almanac.ParseSeedsExample and Almanac.ParseMapExample: stated for any line with the example's words, with `SeedLineWords` and `MapLineWords` giving those words, rather than on the literal string in one step.
- The end-to-end example of day 5 (35 and 46 on the seven-stage almanac) is not evaluated, because it also needs the line loop that is left out.
- On day 3, the totals 4361 and 467835 of the example schematic are not evaluated.
- On day 2, the example totals 8 and 2286 are not evaluated. Only the power 48 of the first game's minimal bag is.
- On day 1, these tests are not evaluated: "foo1bar2baz" and "foo1bar3qux2baz", the part 2 lines "three12", "12four" and "6fourmnvkgnthjtnjqkr", the sum 281, and "1twoniner" read backward. The general lemmas `LeadingNameCounts`, `TrailingName`, `DigitsFirst` and `DigitsLast` cover these shapes.
- Trebuchet.ExtractNumber: its own contract only bounds the value; the digits it is made of are stated by `Calibration`, `Digits`, `DigitsFirst` and `DigitsLast`.
- CubeGame: each element of a line is parsed up front into `Option<Draw>`. The scan panics when it reaches a `None`, which gives the same verdict as the source's `unwrap` inside the loop, because a `break` stops before later elements.
- CubeGame.LimitVerdict: stated for lines whose draws all parse with known colours. Other lines are covered by `RunStopped` and `RunLimitStops`.
- BoatRace.Analyze and BoatRace.ParseNumbers: their own contracts state only the panics. What they compute is stated by `ParseNumbersLabel`, `Wins` and `Product`.
- BoatRace.ExampleJoinedRace: starts from the joined numbers 71530 and 940200. Parsing the example lines "Time:      7  15   30" and "Distance:  9  40  200" into them is not evaluated; `ParseNumbersLabel` and `JoinedSingleNumber` state the join for every line.
- CubeGame.ExamplePower: starts from the minimal bag of the first example game. Parsing that line is not evaluated; `HeaderParts` and `DrawParts` state the parse of a heading and of a draw for every line.
- CamelCards.ParseBid: rejects a hand that is not five cards from "AKQJT98765432". This is a modelling choice. The source panics for a card outside that alphabet only when `compare_cards` is reached: for a count tie in the sort of `Hand::from`, or for a rank tie in `cmp`. Otherwise it goes on; for instance the single line "XXXXX 5" gives 5, where `Total` gives None.
- Day 7's `sort_by` is modelled as a stable insertion sort, a function on sequences. The in-place sort of the Rust standard library is not modelled.
- Day 5's `ranges.sort_by` in `normalize` (src/puzzle05.rs:226) sorts the vector in place. It is modelled as the stable insertion sort `SortByStart`, a function on sequences; the in-place sort of the Rust standard library is not modelled.
- Scratchcards: the copy list of `fetch_copies` is a `seq` field of class `CopyStore`, not a fixed array: `Vec::remove` shifts the entries left.
- Scratchcards.CopyStore.Fetch: the loop itself is `Sweep`. `Fetch` calls it and writes the store back.

## Findings

| source | as written | input that shows it | evidently intended | confidence | as-written member | corrected member |
|---|---|---|---|---|---|---|
| src/puzzle05.rs:198 | the unmapped suffix of a range that starts inside the domain and ends beyond it starts at `domain.end()` | map (2,3)->10 on range (2,5) gives ([(4,2)], [(10,3)]): 4 is both mapped and kept, 6 is lost; `apply_map` then answers 4 although no seed reaches a location below 5 | the suffix starts at `domain.end() + 1` | not executed | `Ranges.ApplyHeadInsideCounterexample`, `Ranges.ApplyHeadInsideShifted`, `Almanac.ApplyMapUndershoots` | `Ranges.HeadInsideLaw`, `Almanac.ApplyMapFixedExample`, `Almanac.LowestFromFixed` |
| src/puzzle05.rs:204-207 | the suffix after a domain strictly inside the range is given the prefix's size | map (2,3)->10 on range (0,8) keeps (5,2), losing the value 7 | the suffix runs from `domain.end() + 1` to `r.end()` | not executed | `Ranges.ApplyDomainInsideCounterexample`, `Ranges.ApplyDomainInsideSuffix` | `Ranges.DomainInsideLaw`, `Ranges.ApplyFixed` |
| src/puzzle05.rs:238 | merging sets the end to the next range's end, even when that is earlier | `normalize` of (0,10) and (2,2) gives (0,4), losing 4 to 9 | the merged range ends at the later of the two ends | not executed | `Ranges.NormalizeShrinksCounterexample`, `Ranges.AbsorbCovers` | `Ranges.NormalizedFixedCovers`, `Ranges.MergeFromFixedSpan` |
| src/puzzle04.rs:70 | `2^copy` is a bitwise exclusive or | the first test card has 4 matches: `2 ^ 4` is 6, where the test at line 86 expects 8 | 0 points without a match, else 2 to the power `copy - 1` | not executed | `Scratchcards.WinCounterexample`, `Scratchcards.WinNeverPoints` | `Scratchcards.PointsDouble` |
