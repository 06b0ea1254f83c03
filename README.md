# Art and travel visualisations: a verified model of their logic

The repository is a set of browser scripts that draw small data
visualisations with d3 and Leaflet. Most of each script is drawing. Four of
them also hold logic, and this project models that logic in Dafny:

- **Year replay** (`scatterplot22.js`). The art records are rolled up by
  year and by type, summing counts. One circle per type shows the current
  year. A Play button advances the year on a timer and should stop once it
  wraps around. A Pause button should stop the timer, and a slider jumps
  to a year. As written, Pause is never enabled, so only the slider stops
  playback. Modules `ReplayAggregate`, `ReplayMarks` and `ReplayPlayer`; the
  player is a class whose fields are the script's `currentYear` and `timer`.
- **Bubble timeline** (`scatterplot.js`). The same records are flattened
  into one row per year, with a count field and a `types_<type>` list per
  type. The radius scale's domain comes from deleting `year` from every row
  in place, merging the rows and taking the largest number. There is one dot
  per raw record. Module `ScatterRows`.
- **Travel map** (`maps.js`). It computes a capped marker style per city,
  totals the visits and counts the distinct provinces. It sorts the cities
  in place by visits, descending, to list them as cards. It resizes markers
  on zoom and back-fills each marker's visit count by coordinates. Module
  `Travel`; the sort is an in-place insertion sort on an `array`, proved
  equal to the stable descending sort.
- **Education tree** (`three.js`). It derives the drawing's size from the
  tree's node count and height. Labels go left of inner nodes and right of
  leaves. Each label is wrapped greedily by a text measurer into lines no
  wider than 300px, except that a single word wider than that sits alone
  on its own line. Modules `TreeLayout` and `WordWrap`. The wrap loop is a
  method, proved to build the lines of a recursive `Layout` function, and
  the wrap's promises are lemmas about that function.

`Seqs` holds the array helpers the scripts rely on: `indexOf` and
de-duplication through a `Set`.

The model makes these boundary choices:

- JavaScript numbers are `int` where they count things and `real` where
  they are coordinates, radii or opacities.
- The text measurer (`getComputedTextLength`) is a function parameter.
- The zoom scale `Math.pow(1.3, zoom - 5)` and the viewport width
  `window.innerWidth` are parameters.
- A timer tick is one atomic method call.

## Model

| member | source | states |
|---|---|---|
| `Seqs.IndexOf` | scatterplot22.js:187 | the first position of x, or -1 exactly when x is absent |
| `Seqs.IndexOfNoDup` | scatterplot22.js:187 | with no duplicates, the index of `s[k]` is k |
| `Seqs.Distinct` | scatterplot22.js:28 | no duplicates, and holds exactly the elements of s |
| `Seqs.DistinctOrder` | scatterplot22.js:28 | the distinct elements keep their order of first appearance |
| `Seqs.DistinctUnique` | scatterplot22.js:28 | any duplicate-free list with the same elements in first-appearance order is `Distinct(s)` |
| `Seqs.DistinctCard` | maps.js:110 | the number of distinct elements is the size of the element set |
| `ReplayAggregate.YearsOf` | scatterplot22.js:23 | one year per record, in data order |
| `ReplayAggregate.KindsOf` | scatterplot22.js:28 | one type per record, in data order |
| `ReplayAggregate.SumOfSnoc` | scatterplot22.js:22 | appending a record adds its count to exactly its own (year, type) sum |
| `ReplayAggregate.NestCorrect` | scatterplot22.js:20-25 | a year is a key exactly when some record has it; a (year, type) entry exists exactly when such a record exists, and it holds the sum of their counts |
| `ReplayAggregate.SumOfAbsent` | scatterplot22.js:22 | a pair that never occurs sums to 0 |
| `ReplayAggregate.InsertAscCorrect` | scatterplot22.js:27 | inserting a new year into an ascending list keeps it ascending and adds exactly that year |
| `ReplayAggregate.SortAscCorrect` | scatterplot22.js:27 | sorting distinct years gives a strictly ascending list of the same years |
| `ReplayAggregate.IncreasingUnique` | scatterplot22.js:27 | two strictly ascending lists with the same elements are equal |
| `ReplayAggregate.YearsCorrect` | scatterplot22.js:27 | `years` is strictly ascending, holds exactly the rollup's keys, and is empty only without data |
| `ReplayAggregate.TypesCorrect` | scatterplot22.js:28 | `types` has no duplicates, holds exactly the records' types, in first-appearance order |
| `ReplayAggregate.SampleKeys` | scatterplot22.js:5-17 | the built-in records cover exactly the years 2020 to 2023 |
| `ReplayAggregate.YearsAre` | scatterplot22.js:27 | `years` is the only increasing list of exactly the years that occur |
| `ReplayAggregate.SampleYearsOf` | scatterplot22.js:27 | the built-in `years` is `[2020, 2021, 2022, 2023]` |
| `ReplayAggregate.SampleYears` | scatterplot22.js:27 | the same, stated on the literal records |
| `ReplayAggregate.SampleNest` | scatterplot22.js:20-25 | the built-in rollup holds Sculpture 7 for 2020, Digital Art 9 for 2021 and Painting 7 for 2023, and no Photography entry for 2022 |
| `ReplayAggregate.SamplePhotography2022` | scatterplot22.js:20-25 | the 2022 table exists and has no Photography entry |
| `ReplayAggregate.NoPhotography2022` | scatterplot22.js:5-17 | 2022 has records, none of them Photography |
| `ReplayAggregate.SampleSculpture2020` | scatterplot22.js:7 | the rollup entry for 2020 Sculpture is 7 |
| `ReplayAggregate.SampleDigitalArt2021` | scatterplot22.js:11 | the rollup entry for 2021 Digital Art is 9 |
| `ReplayAggregate.SamplePainting2023` | scatterplot22.js:14 | the rollup entry for 2023 Painting is 7 |
| `ReplayAggregate.SampleEntry` | scatterplot22.js:20-25 | every record's (year, type) has an entry holding the sum |
| `ReplayMarks.YearTable` | scatterplot22.js:131 | `nested.get(year) ?? new Map()`: an unknown year gives the empty map |
| `ReplayMarks.ColorOf` | scatterplot22.js:149 | a type outside the palette is filled `#ccc` |
| `ReplayMarks.RadiusFor` | scatterplot22.js:167 | radius 0 exactly when the type is absent that year, otherwise the scaled count of that year |
| `ReplayMarks.OpacityFor` | scatterplot22.js:168 | opacity 0 exactly when the type is absent, 0.9 otherwise |
| `ReplayMarks.Keys` | scatterplot22.js:134 | the key of each mark is its type |
| `ReplayMarks.Find` | scatterplot22.js:133-134 | the mark bound to a key, or none exactly when no mark has that key |
| `ReplayMarks.Join` | scatterplot22.js:133-168 | after `update` the marks are one per type, in `types` order, showing the year |
| `ReplayMarks.Hover` | scatterplot22.js:152-155 | the tooltip shows the type, the captured year and the captured table's count, or 0 when the type is absent |
| `ReplayMarks.JoinPresence` | scatterplot22.js:161-168 | an absent type's mark is kept with radius 0 and opacity 0; a present one has its count and 0.9 |
| `ReplayMarks.JoinTips` | scatterplot22.js:144-158 | a mark already bound keeps its fill and hover closure; a new one gets the palette colour and this update's year and table |
| `ReplayMarks.JoinEnters` | scatterplot22.js:144-159 | on an empty svg every mark is entered with this update's colour and closure |
| `ReplayMarks.JoinRestyles` | scatterplot22.js:161-168 | when every type is bound, update only restyles the existing marks |
| `ReplayMarks.FindNoDup` | scatterplot22.js:134 | with unique keys, looking a mark up by its own key finds it |
| `ReplayMarks.JoinIdempotent` | scatterplot22.js:133-168 | a second update with the same year changes nothing |
| `ReplayMarks.HoverStale` | scatterplot22.js:152-155 | after any update, hovering still shows the year and count captured when the mark was created |
| `ReplayPlayer.NextYear` | scatterplot22.js:187-188 | the next year is a year of the list, and the first year when the current one is not in it |
| `ReplayPlayer.Succ` | scatterplot22.js:188 | `(i + 1) % n` for an index from -1 to n - 1 |
| `ReplayPlayer.NextYearAt` | scatterplot22.js:187-188 | the year after `years[k]` is `years[(k+1) mod n]`, and it is the first year exactly after the last |
| `ReplayPlayer.RunFrom` | scatterplot22.js:186-191 | from year j, k ticks reach year j + k while running, and stop at the first year on wraparound |
| `ReplayPlayer.RunFromFirst` | scatterplot22.js:186-191 | from the first year, n ticks return to it and stop the timer |
| `ReplayPlayer.Pos` | scatterplot22.js:188 | the index k ticks after j stays a valid index |
| `ReplayPlayer.PosMod` | scatterplot22.js:188 | that index is (j + k) mod n |
| `ReplayPlayer.RunAsWrittenPos` | scatterplot22.js:186-190 | as written, k ticks from year j reach year (j + k) mod n and the timer keeps running |
| `ReplayPlayer.RunAsWrittenNeverStops` | scatterplot22.js:186-190 | as written, from the first year the timer never stops, and the year cycles |
| `ReplayPlayer.RunAsWrittenSnoc` | scatterplot22.js:186-190 | as written, each further tick is one more step, and playback stays running |
| `ReplayPlayer.RollupFacts` | scatterplot22.js:20-28 | with data, `years` is non-empty, strictly ascending and duplicate-free, and `types` is duplicate-free |
| `ReplayPlayer.Player.constructor` | scatterplot22.js:123-124 | the player starts on the first year with no timer, Play enabled and Pause disabled, and the initial update shows that year |
| `ReplayPlayer.Player.Update` | scatterplot22.js:127-169 | `update(y)` sets `currentYear` to y and rejoins the marks to that year's table, leaving the timer and the buttons alone |
| `ReplayPlayer.Player.StopTimer` | scatterplot22.js:202-203 | the timer is stopped and cleared, and nothing else changes |
| `ReplayPlayer.Player.StartTimer` | scatterplot22.js:184-191 | with a timer set nothing happens; otherwise one interval of 1700ms is started and held in `timer` |
| `ReplayPlayer.Player.Play` | scatterplot22.js:184-193 | as meant: with a timer set Play does nothing; otherwise it starts one 1700ms interval, disables Play and enables Pause, so a running timer can always be paused |
| `ReplayPlayer.Player.PlayAsWritten` | scatterplot22.js:184-193 | as written: the interval starts, then the throw at line 192 leaves both buttons as they were |
| `ReplayPlayer.Player.Pause` | scatterplot22.js:201-206 | as meant: no timer and no live interval, Play enabled and Pause disabled; a second run changes nothing |
| `ReplayPlayer.Player.PauseAsWritten` | scatterplot22.js:201-206 | as written: no timer, Play enabled, and the throw at line 205 leaves Pause enabled |
| `ReplayPlayer.Player.ClickPause` | scatterplot22.js:196-206 | a click on the disabled Pause button changes nothing; on the enabled one it runs Pause; from a pausable state no timer is left |
| `ReplayPlayer.Player.ClickPauseAsWritten` | scatterplot22.js:196-206 | the same click with the handler as written |
| `ReplayPlayer.Player.Slide` | scatterplot22.js:227-230 | slider input stops any timer, then shows the chosen year, leaving the buttons alone |
| `ReplayPlayer.Player.Tick` | scatterplot22.js:186-191 | one tick as intended: advance to the next year, and on wraparound stop the timer and reset the buttons as Pause does |
| `ReplayPlayer.Player.TickAsWritten` | scatterplot22.js:186-190 | one tick as written: advance to the next year with the timer still running and the buttons unchanged |
| `ReplayPlayer.Player.HoverText` | scatterplot22.js:152-155 | hovering a mark shows its type with the first year's count, or 0 |
| `ReplayPlayer.PlayCycle` | scatterplot22.js:184-191 | Play from the first year runs exactly n ticks and ends on the first year with no timer, Play enabled and Pause disabled |
| `ReplayPlayer.CycleAsWritten` | scatterplot22.js:184-193 | as written, after Play and any number of ticks the timer is still running and the buttons are unchanged |
| `ReplayPlayer.PlayThenPause` | scatterplot22.js:184-206 | as meant: after Play, any number of ticks and a click on Pause, no timer runs and Play is enabled |
| `ReplayPlayer.Replay` | scatterplot22.js:123-235 | a whole page run: render, Play, and ticks until it stops on the first year after n ticks |
| `ReplayPlayer.ReplayAsWritten` | scatterplot22.js:123-235 | the same as written, with Pause clicked at the end: Pause is still disabled, and after k ticks the year is k mod n and the timer is still running |
| `ReplayPlayer.SampleReplay` | scatterplot22.js:5-235 | on the built-in records, playback stops on 2020 after 4 ticks |
| `ReplayPlayer.SampleReplayAsWritten` | scatterplot22.js:5-235 | as written, on the built-in records the year after 5 ticks and a click on Pause is 2021 and the timer is still running |
| `ScatterRows.TypesKey` | scatterplot.js:77 | the key is `types_` followed by the type |
| `ScatterRows.TypesKeyInjective` | scatterplot.js:77 | distinct types get distinct `types_` keys |
| `ScatterRows.KindsOfYear` | scatterplot.js:66 | the types of that year's records, no more, no fewer |
| `ScatterRows.Matching` | scatterplot.js:63 | `types` lists the type once per contributing record |
| `ScatterRows.Groups` | scatterplot.js:59-69 | one entry per distinct type of the year, in first-appearance order, holding its sum and its type list |
| `ScatterRows.AggregatedData` | scatterplot.js:59-80 | one flattened row per distinct year |
| `ScatterRows.RestMisses` | scatterplot.js:71-79 | the rollup's entries write distinct keys |
| `ScatterRows.TouchedRest` | scatterplot.js:71-79 | a key written by the later entries is written by the whole list |
| `ScatterRows.ReduceWrites` | scatterplot.js:76-77 | the reduce writes each type's count and its type list |
| `ScatterRows.ReduceKeeps` | scatterplot.js:71-79 | a key no entry writes keeps its value |
| `ScatterRows.ReduceOnly` | scatterplot.js:71-79 | the reduce adds no other key |
| `ScatterRows.GroupsAreEntries` | scatterplot.js:59-69 | with type names that collide with neither `year` nor a `types_` key, the entries write distinct keys |
| `ScatterRows.FlattenIsReduce` | scatterplot.js:67-79 | the `year` entry comes first and no type entry overwrites it |
| `ScatterRows.FlattenYear` | scatterplot.js:72-74 | `year` is copied unchanged |
| `ScatterRows.FlattenType` | scatterplot.js:76-77 | a type present that year has its summed count and its `types_` list |
| `ScatterRows.FlattenOnly` | scatterplot.js:71-79 | every other field is a type of that year or its `types_` list |
| `ScatterRows.AggregatedRows` | scatterplot.js:59-80 | the rows follow the distinct years in first-appearance order, each the flattened row of its year |
| `ScatterRows.YearOrderUnsorted` | scatterplot.js:104 | the years are distinct but not sorted: 2021 before 2020 when it appears first |
| `ScatterRows.Strip` | scatterplot.js:120 | `delete curr.year` removes `year` and keeps every other field |
| `ScatterRows.LastWith` | scatterplot.js:121-124 | the last row holding a key, or -1 when none does |
| `ScatterRows.MergeNoYear` | scatterplot.js:119-124 | the merged row has no `year` |
| `ScatterRows.MergeLast` | scatterplot.js:121-124 | a key is in the merge exactly when some row has it, with the value of the last such row |
| `ScatterRows.MergedCount` | scatterplot.js:119-125 | each type ends with the count of the last year it occurs in |
| `ScatterRows.MergedNumbers` | scatterplot.js:125 | only type fields are numbers, so `types_` lists never reach the max |
| `ScatterRows.MaxNumber` | scatterplot.js:125 | the largest numeric field, or none when there is no number |
| `ScatterRows.StripAll` | scatterplot.js:120 | every row loses `year` |
| `ScatterRows.SizeDomain` | scatterplot.js:118-125 | the rows are stripped of `year` in place, and the result is the max number of their merge |
| `ScatterRows.YearOrderAscending` | scatterplot.js:59 | with records in year order, the row order is ascending |
| `ScatterRows.SampleYearOrder` | scatterplot.js:3-59 | on the built-in records the rows are 2020 to 2023 |
| `ScatterRows.PlainByHead` | scatterplot.js:77 | a type name starting with neither `t` nor `y` cannot collide |
| `ScatterRows.SamplePlain` | scatterplot.js:3-55 | the built-in type names collide with no other key |
| `ScatterRows.MergedAfter` | scatterplot.js:119-124 | a record's type is merged with a count from its own year or later |
| `ScatterRows.SamplePainting` | scatterplot.js:119-124 | on the built-in records the merged Painting count is 7 (2023) |
| `ScatterRows.SampleSculpture` | scatterplot.js:119-124 | the merged Sculpture count is 5 (2023) |
| `ScatterRows.SamplePhotography` | scatterplot.js:119-124 | the merged Photography count is 2 (2023) |
| `ScatterRows.SampleDigitalArt` | scatterplot.js:119-124 | the merged Digital Art count is exactly its 2022 count, 6 |
| `ScatterRows.NoDigitalArt2023` | scatterplot.js:39-55 | no built-in record is Digital Art from 2023 |
| `ScatterRows.SampleKinds` | scatterplot.js:3-55 | the built-in records have four types |
| `ScatterRows.SampleNumberKeys` | scatterplot.js:119-125 | the merged numbers are those of the four types |
| `ScatterRows.BoundByType` | scatterplot.js:119-125 | with these merged counts no number exceeds 7 |
| `ScatterRows.MaxIsSeven` | scatterplot.js:125 | a max over numbers bounded by 7 that include 7 is 7 |
| `ScatterRows.SampleDomain` | scatterplot.js:118-126 | on the built-in records the domain max is 7, not the overall maximum 9 |
| `ScatterRows.SizeScale` | scatterplot.js:118-126 | counts in the domain map into [5, 20], counts above it beyond 20, and an empty domain to 12.5 |
| `ScatterRows.SizeScaleMonotone` | scatterplot.js:118-126 | a larger count gets a radius at least as large |
| `ScatterRows.Dots` | scatterplot.js:130-136 | one dot per raw record, with that record's year, type and scaled count |
| `ScatterRows.SampleOversized` | scatterplot.js:118-136 | on the built-in records the 2021 Digital Art dot gets a radius above 20 |
| `ScatterRows.MaxCount` | scatterplot.js:119-125 | the largest record count, or none without records |
| `ScatterRows.MaxCountDotsInRange` | scatterplot.js:118-136 | with that domain every dot lies within [5, 20] |
| `Travel.Min` | maps.js:81-82 | `Math.min`: a lower bound equal to one argument |
| `Travel.GetDotStyle` | maps.js:80-84 | radius min(18, 6 + 2.5v) and fill opacity min(0.9, 0.5 + 0.08v), with the fixed colours, and `visits` recorded |
| `Travel.DotStyleMonotone` | maps.js:81-82 | more visits never give a smaller or fainter dot |
| `Travel.DotStyleSaturates` | maps.js:81-82 | both caps are reached exactly from 5 visits |
| `Travel.ProvincesOf` | maps.js:91 | one province per city, in order |
| `Travel.MarkerFor` | maps.js:93 | the marker sits at the city with its dot style |
| `Travel.PlaceCities` | maps.js:86-107 | the loop's `totalVisits` is the sum of visits, `provinces` the set of provinces, one marker per city |
| `Travel.ProvinceCount` | maps.js:110 | the Set's size is the number of distinct provinces |
| `Travel.Totals` | maps.js:86-111 | the three statistics: city count, distinct provinces, total visits |
| `Travel.SumVisitsAppend` | maps.js:90 | the total splits over concatenation |
| `Travel.SumVisitsPermutation` | maps.js:90 | reordering the cities keeps the total |
| `Travel.WithVisits` | maps.js:114 | the cities with a given visit count, in order |
| `Travel.WithVisitsIn` | maps.js:114 | they are cities of the list |
| `Travel.WithVisitsNone` | maps.js:114 | none when no city has that count |
| `Travel.WithVisitsAppend` | maps.js:114 | the filter splits over concatenation |
| `Travel.FirstFewer` | maps.js:114 | the first position holding fewer visits |
| `Travel.InsertDescAt` | maps.js:114 | insertion puts the city after all with at least its visits |
| `Travel.SpliceSorted` | maps.js:114 | such a splice keeps the list descending |
| `Travel.InsertDescSorted` | maps.js:114 | insertion keeps the list descending and adds exactly the city |
| `Travel.SpliceTies` | maps.js:114 | such a splice puts the city after its ties |
| `Travel.InsertDescTies` | maps.js:114 | insertion keeps every group of ties in order, the new city last |
| `Travel.SortDescSorted` | maps.js:114 | the insertion of each city in turn yields a list descending by visits |
| `Travel.SortDescPerm` | maps.js:114 | the sort keeps every city, as often as it occurs |
| `Travel.SortDescTies` | maps.js:114 | cities with equal visits keep their original order |
| `Travel.SortDescFacts` | maps.js:114 | the sort is descending, a permutation, and stable: ties keep their order |
| `Travel.WithVisitsDropLast` | maps.js:114 | dropping the last city drops it from its own group only |
| `Travel.LastIsFewest` | maps.js:114 | the last of a descending list has the fewest visits |
| `Travel.LastPicked` | maps.js:114 | the last city is the last of its group |
| `Travel.SortedLastSame` | maps.js:114 | two descending lists with the same groups end with the same city |
| `Travel.SortedTiesUnique` | maps.js:114 | two descending lists with the same groups in the same order are equal |
| `Travel.StableSortIsSortDesc` | maps.js:114 | any stable descending sort, the array sort included, gives `SortDesc` |
| `Travel.ShiftRight` | maps.js:114 | a slice of the array moves one place right, the rest unchanged |
| `Travel.InsertAt` | maps.js:114 | the prefix becomes the old prefix with the next city inserted |
| `Travel.SortByVisits` | maps.js:114 | the array is sorted in place into `SortDesc` of its old contents |
| `Travel.SortedCards` | maps.js:113-120 | `cityData` is sorted in place and there is one card per sorted city, in order |
| `Travel.CardsOrdered` | maps.js:113-120 | the cards descend by visits, cover every city once, and ties keep their order |
| `Travel.ZoomRadius` | maps.js:126-127 | min(20, (6 + 2.5v) scale): at most both arguments and equal to one of them |
| `Travel.ZoomZeroIsOne` | maps.js:126 | a missing or 0 visit count counts as 1 |
| `Travel.ZoomMonotone` | maps.js:127 | zooming in never shrinks a marker |
| `Travel.ZoomAtBase` | maps.js:127 | at scale 1 the zoomed radius equals the dot style's up to 4 visits and exceeds it from 5 |
| `Travel.Zoom` | maps.js:122-129 | every marker's radius becomes its zoom radius, at most 20 |
| `Travel.FindByCoords` | maps.js:133 | the first city at those coordinates, or none |
| `Travel.BackFill` | maps.js:131-135 | every marker's visits become those of the first city at its coordinates, if any |
| `Travel.RefillNoOp` | maps.js:131-135 | with unique coordinates the back-fill changes no marker |
| `Travel.RefillShared` | maps.js:131-135 | two cities at one spot both get the visits of the first of them in the sorted list |
| `Travel.ShowTravels` | maps.js:86-135 | the whole page: statistics, sorted cards, and markers back-filled against the sorted list |
| `Travel.ShowTravelsMarkers` | maps.js:131-135 | with unique coordinates each marker keeps its own city's visits after the sort |
| `WordWrap.WordFacts` | three.js:169 | the first piece is the longest whitespace-free prefix: whitespace or the end follows it |
| `WordWrap.SkipFacts` | three.js:169 | skipping a whitespace run leaves a suffix that does not start with whitespace |
| `WordWrap.SplitCons` | three.js:169 | text with whitespace splits into its first word and the split of what follows the run |
| `WordWrap.PiecesCons` | three.js:169 | a whitespace-free word in front of pieces that start with a word keeps them well formed |
| `WordWrap.SplitPieces` | three.js:169 | `split(/\s+/)` pieces hold no whitespace, and only the first and last can be empty |
| `WordWrap.SplitMiddle` | three.js:169 | every piece strictly between the first and the last is a word |
| `WordWrap.SplitFirst` | three.js:169 | the first piece is empty exactly for empty text or text starting with whitespace |
| `WordWrap.SplitStep` | three.js:169 | a word followed by whitespace splits off as one piece |
| `WordWrap.SkipOne` | three.js:169 | one space before a word is skipped |
| `WordWrap.SplitSpaced` | three.js:169 | a word, one space and further words split into the word and the split of the rest |
| `WordWrap.JoinCons` | three.js:179 | joining two or more words puts one space after the first |
| `WordWrap.SplitJoin` | three.js:169 | splitting words joined by single spaces gives the words back |
| `WordWrap.WordPrefix` | three.js:169 | a word followed by whitespace or the end is read whole |
| `WordWrap.JoinStart` | three.js:179 | a joined line starts with its first word |
| `WordWrap.TakeWordsFacts` | three.js:177 | the loop consumes a prefix of non-empty pieces ending at an empty piece or at the end |
| `WordWrap.TakeWordsAt` | three.js:177 | the loop stops at the first empty piece or at the end |
| `WordWrap.TakePieces` | three.js:177 | over well-formed pieces the loop takes none when the first is empty, else all but a trailing empty one |
| `WordWrap.WordsNone` | three.js:169-177 | no word is placed exactly for empty text or text starting with whitespace |
| `WordWrap.WordsKept` | three.js:169-177 | text starting with a word places every piece but a trailing empty one |
| `WordWrap.Reverse` | three.js:169 | `reverse()` keeps the length |
| `WordWrap.ReversePop` | three.js:177 | `pop()` on the reversed list gives the first word and leaves the reversed rest |
| `WordWrap.ConcatSnoc` | three.js:178 | a new line adds its words at the end |
| `WordWrap.Layout` | three.js:177-185 | the greedy layout always has a line |
| `WordWrap.PlaceLast` | three.js:178-184 | a word that overflows the current line starts a new one, otherwise it joins the current line |
| `WordWrap.LayoutSnoc` | three.js:177-185 | one more word is placed on the layout of the words before it |
| `WordWrap.LayoutStep` | three.js:177-185 | the layout of one more word, in terms of the lines closed and the current line |
| `WordWrap.LayoutConcat` | three.js:177-185 | the lines hold the words in order, none lost or repeated |
| `WordWrap.LayoutFirst` | three.js:176-184 | only the first line can be empty, exactly when there are no words or the first word is too wide alone |
| `WordWrap.PlaceFits` | three.js:179-184 | placing a word keeps every line of two or more words within the width |
| `WordWrap.LayoutFits` | three.js:179-184 | every line of two or more words fits the width |
| `WordWrap.PlaceGreedy` | three.js:179-184 | placing a word keeps every later line starting with the word that overflowed the line before |
| `WordWrap.GreedyNewLine` | three.js:183 | a word that overflows starts a new line after lines that were greedy |
| `WordWrap.GreedyExtend` | three.js:178 | a word added to the last line leaves every line's first word in place |
| `WordWrap.LayoutGreedy` | three.js:179-184 | every later line starts with the word that overflowed the line before |
| `WordWrap.Tspans` | three.js:176-184 | line i's tspan shows the line joined by spaces at an offset of i * 1.2 + dy em |
| `WordWrap.TspansSnoc` | three.js:184 | closing a line appends its tspan at the next offset |
| `WordWrap.PlaceWord` | three.js:178-185 | one turn of the loop places the word as the greedy layout does and keeps one tspan per closed line |
| `WordWrap.LayoutFromLayout` | three.js:177-185 | placing further words one by one on a layout lays out the whole word list |
| `WordWrap.Wrap` | three.js:166-188 | the loop builds the greedy layout of the text's words, `lineNumber` is the line count less one, one tspan per line at 1.2em steps |
| `WordWrap.WrapFacts` | three.js:169-185 | the wrapped label shows its words in order, only its first line may be empty, and only a one-word line is wider than the width |
| `TreeLayout.Size` | three.js:78-80 | a node counts itself and at least its children |
| `TreeLayout.SizeAll` | three.js:78-80 | a forest counts at least one node per tree |
| `TreeLayout.MaxHeight` | three.js:79 | the greatest height among the children, attained by one of them |
| `TreeLayout.HeightBelowSize` | three.js:79-80 | the tree's height is below its node count |
| `TreeLayout.MaxHeightBelowSizeAll` | three.js:79-80 | a forest's greatest height is below its node count |
| `TreeLayout.ChildSmaller` | three.js:79-80 | a child's subtree is smaller and lower |
| `TreeLayout.SizeAllAtLeast` | three.js:80 | a forest counts at least each tree's nodes |
| `TreeLayout.MinWidth` | three.js:81 | at least one node's spacing plus the margins |
| `TreeLayout.MinHeight` | three.js:82 | at least one level's spacing plus the margins |
| `TreeLayout.MinimaFormulas` | three.js:72-82 | minWidth is 250 per node plus 380, minHeight 50 per level plus 690 |
| `TreeLayout.ChartWidth` | three.js:84 | at most the minimum width and at most 90% of the viewport, and equal to one of them |
| `TreeLayout.ChartHeight` | three.js:85 | at most 1200 and at most the minimum height, and equal to one of them |
| `TreeLayout.HeightCapped` | three.js:82-85 | the 1200 cap bites exactly for height 11 or more |
| `TreeLayout.WidthForViewport` | three.js:84 | a wide viewport leaves the minimum width, a narrow one gives 90% of it |
| `TreeLayout.SvgWidth` | three.js:90 | the svg is at most 90% of the viewport plus 380 wide |
| `TreeLayout.SvgHeight` | three.js:91 | the svg's height lies between 1330 and 1840 |
| `TreeLayout.LabelFor` | three.js:127-128 | inner nodes take offset -15 and anchor `end`, leaves 15 and `start` |
| `TreeLayout.LabelAwayFromChildren` | three.js:127-128 | offset -15 exactly with children, 15 exactly without |
| `TreeLayout.DrawLabel` | three.js:125-132 | a label is placed on its node's side and its name wrapped to 300px from 0.35em |
| `TreeLayout.LeafGroup` | three.js:78-79 | a node whose children are leaves counts 1 + children and has height 1, or 0 without children |
| `TreeLayout.LeavesOnly` | three.js:78-79 | leaves count one each and have height 0 |
| `TreeLayout.GroupsSize` | three.js:78-79 | groups of leaves count one each plus their entries |
| `TreeLayout.TwoLevelsFacts` | three.js:78-80 | a root with groups of leaves counts 1 + groups + entries and has height at most 2 |
| `TreeLayout.SampleShape` | three.js:2-69 | the page's tree has seven groups of 3, 3, 3, 1, 2, 1 and 0 entries; the empty group labels right |
| `TreeLayout.SampleDimensions` | three.js:78-91 | that tree has 21 nodes and height 2: minWidth 5630, height 790, svg height 1430 |

## Left out

- Drawing is not modelled: SVG and DOM construction, the injected HTML, CSS, axes, links, circles and tooltip positioning. Marks and markers are records of their attributes.
- d3 scales are not modelled beyond the size scale of `scatterplot.js` and a symbolic `Scaled(count)` radius in the replay view. That covers `scalePoint`, `scaleBand` and `scaleSqrt`.
- d3 transitions, durations and easing are not modelled; a mark's final attributes are set at once.
- The `d3.tree` coordinates are not modelled. Only the node count and height reach the dimension formulas.
- `d3.interval` timing is not modelled. A tick is one method call, and the timer is a handle with its 1700ms delay.
- Leaflet is left out: the map, tiles, layer groups, and popups with their HTML. So are the hover restyling of markers and the mobile `alert`.
- The zoom scale is a real parameter, not `Math.pow(1.3, zoom - 5)`, and the viewport width is a parameter.
- `getComputedTextLength` is a function parameter from a line's text to its width; fonts are not modelled.
- The `x` and `y` attributes copied onto each tspan are not modelled.
- Floating point is modelled as exact `real` arithmetic, with no rounding.
- The built-in city list of maps.js is not part of this model. The travel operations are proved for every list.
- script.js is not part of this model. It is a static bar chart with no logic beyond a library max.
- `ReplayMarks.ColorOf`: `colorMap[d] || "#ccc"` looks the name up through `Object.prototype`, so a type named like an inherited property (`constructor`, `toString`) gets a function, not `#ccc`. The model gives `#ccc` to every name outside the palette.
- `Object.entries` lists integer-like keys first. That ordering is not modelled: row lemmas assume type names that collide with neither `year` nor a `types_` key (`PlainKinds`), which the built-in names satisfy.
- `Travel.SortByVisits`: the engine's sort algorithm (TimSort) is modelled by an insertion sort. `Travel.StableSortIsSortDesc` shows that every stable descending sort gives the same result.
- `ReplayPlayer.Player.Slide` requires the value to lie between the first and last year, as the range input guarantees. A value in a gap between years is allowed and shows an empty table.
- `ReplayPlayer.Player.constructor` requires records. With none, `years[0]` is undefined and the page shows an empty chart; that page is not modelled, since the script always ships its built-in records.

The model keeps three behaviours of the code that may surprise a reader:

- An absent type's mark is kept with radius 0 and opacity 0. It is never removed, because the join is keyed by the full `types` list.
- The hover text shows the year and table captured when the mark was created, which is the first year. It does not show the year on screen.
- A slider value between two listed years is not an error. It shows that year with an empty table.

## Findings

| source | as written | input that shows it | evidently intended | confidence | as-written member | corrected member |
|---|---|---|---|---|---|---|
| scatterplot22.js:190 | the tick calls `pause()`; no such function exists and the name resolves to the `#pause` button element, so the call throws a TypeError after `update(next)`; the interval has already rescheduled itself and keeps firing | the built-in records, Play from 2020: after four ticks the year wraps to 2020 and the timer is still running | stop and clear the timer on wraparound, as the Pause button does at 202-203 | not executed | `ReplayPlayer.Player.TickAsWritten` and `ReplayPlayer.RunAsWrittenNeverStops` | `ReplayPlayer.Player.Tick` and `ReplayPlayer.RunFromFirst` |
| scatterplot.js:118-125 | the size domain is the max of the merged rows, in which each type keeps only its last year's count, while the dots are drawn from raw record counts | the built-in records: the domain ends at 7, and the 2021 Digital Art record (count 9) gets a radius above the range's top of 20 | a domain ending at the largest count drawn, so every radius lies in [5, 20] | not executed | `ScatterRows.SampleOversized` | `ScatterRows.MaxCountDotsInRange` |
| scatterplot22.js:192-193 | the Play handler is an arrow function in a non-strict script, so its `this` is `window`; `d3.select(this).attr(...)` throws a TypeError because the window has no `setAttribute`, and line 193 never enables `#pause`, which is created disabled at 196-198; the Pause handler can never run, and only the slider stops the timer | the built-in records: press Play, let any number of ticks pass, then press Pause; the timer is still running | Play disables itself and enables Pause, so Pause can stop playback | not executed | `ReplayPlayer.Player.PlayAsWritten` and `ReplayPlayer.ReplayAsWritten` | `ReplayPlayer.Player.Play` and `ReplayPlayer.PlayThenPause` |
