# dumgorf-net tool logic, modelled in Dafny

The dumgorf-net site is a set of small browser tools. This project models the
computations inside those tools and proves what each one promises:

- **Sort-step generators** of the algorithms playground (`SortSteps`).
  - Bubble, selection and insertion sort each copy the input into a fresh
    array, swap elements of the copy in place and record a snapshot after
    every comparison or swap.
  - Each generator is a method over an `array` that returns the whole step
    sequence it would yield.
  - The methods are proved against a trace predicate: every step follows from
    the snapshot before it, with the algorithm's comparison rule. Around it
    are lemmas for permutation, sortedness, step counts and the compared
    positions.
- **32-bit generators and string hash** (`JsInt`, `Mix32`, `Rng`, `Loot`).
  - The two "mulberry32"-style closures are classes with a `bv32` state field.
  - A draw is its 32-bit numerator. Its float is the numerator over 2^32.
  - The RNG playground adds `0x6D2B79F5` once, when the generator is built.
    The loot explorer starts from the raw seed. Neither adds it on later calls.
  - `hashString` runs over the UTF-16 code units of the string, with JavaScript
    ToInt32 wrap-around.
- **Weighted loot roll and simulation** (`Loot`).
  - The cumulative-weight walk, with its last-item fallback.
  - The counting loop over a map and the value statistics. Infinity is a
    datatype case.
  - The seed and run-count input fields.
- **Dice notation and distribution** (`DiceNotation`, `DiceCalculator`).
  - The `[count]d<sides>[±modifier]` parser.
  - The exact enumerator, as integer combination counts `Ways(n, s, t)` in
    place of the `1/total` float masses.
  - The key set of the normal approximation.
  - The roll handler.
- **Input masks** (`InputFormatter`): phone, card, date and SSN formatting, and
  the built-in edge tests checked against the masks.
- **Asset-name linter** (`AssetChecker`).
  - The per-file checks, each with its exact firing condition.
  - The duplicate grouping through an insertion-ordered key map.
  - The category filter, the severity counts and the rename script.
- **Small list and state operations**:
  - `Motion`: the Fisher–Yates `shuffle` on a copied array, `generateItems`,
    and the add/remove demo list as a class.
  - `Registry`: the registry queries, with `Array.prototype.sort` modelled as a
    stable insertion sort by `order`.
  - `Feedback`: the feedback widget's entry list and capped input field, as a
    class.
  - `LazyCache`: the `getLazy` memo cache, as a class whose `React.lazy`
    numbers the wrappers it builds.

Randomness is passed in:
- `Math.random` is a sequence of draws in [0, 1).
- `crypto.randomUUID()` and `Date.now()` are parameters of `AddEntry`.

Shared helpers:
- `JsText` models `trim`, `\s`, `\D` removal, `parseInt`, number printing and
  UTF-16 encoding.
- `JsInt` models ToInt32, ToUint32 and `Math.imul`.
- `Wrappers` holds `Option`.

Points where the code behaves unlike what a reader might expect, modelled as
the code does it:
- **Degenerate tables.** `rollTable` and `simulate` do not reject a table
  whose total weight is 0 or less.
  - With zero total weight the roll is 0, and the first item is returned.
  - The model keeps that behaviour. `Loot.PickInBand` needs a positive total
    to say more.
- **Not standard mulberry32.** The comment at src/screens/RngPlayground.tsx:7
  calls `seededRng` mulberry32, which adds `0x6D2B79F5` to its state on every
  call. `seededRng` adds it only once, when it is built, and `seededRandom`
  never. The model follows the code (`Rng.SeededRng.Next`,
  `Loot.LootRng.Next`).
- **The `Nd0` roll.** It shows every die as 1 (`floor(u * 0) + 1`), so its
  total exceeds the displayed maximum `modifier`.
  - This is `DiceCalculator.ZeroSidesExceedMax`.
  - The exact distribution for `Nd0` is empty (`DiceCalculator.ExactNoFaces`).

## Model

| member | source | states |
|---|---|---|
| JsInt.ToInt32 | src/screens/RngPlayground.tsx:22 | `hash \|= 0`: the result is in [-2^31, 2^31) and congruent to the input modulo 2^32 |
| JsInt.ToInt32Congruent | src/screens/RngPlayground.tsx:21-22 | integers congruent modulo 2^32 wrap to the same signed 32-bit value |
| JsText.Trim | src/screens/DiceCalculator.tsx:17 | `trim` returns a slice of the input with only whitespace before and after it, and the slice neither starts nor ends with whitespace, so exactly the leading and trailing whitespace is removed; all-whitespace input gives "" and input without whitespace is kept |
| JsText.TrimIdempotent | src/screens/FeedbackWidget.tsx:58 | trimming twice is trimming once |
| JsText.DigitsOfAllDigits | src/screens/InputFormatter.tsx:43 | `replace(/\D/g, '')` keeps only digits |
| JsText.DigitsOfAppend | src/screens/InputFormatter.tsx:43 | digit extraction distributes over concatenation |
| JsText.ParseInt | src/screens/LootTableExplorer.tsx:140 | the digits `parseInt` reads, as an exact integer before rounding; text without any digit is NaN (None) |
| JsText.ParseIntOfNat | src/screens/LootTableExplorer.tsx:140 | the digits of any printed non-negative integer read back as that integer, before rounding |
| JsText.DoubleOfNat | src/screens/LootTableExplorer.tsx:140 | the integer becomes the nearest double: one of the two neighbouring multiples of the spacing of doubles at its size, within half a spacing of it, below 2^1024; Infinity only within half a spacing of 2^1024 or beyond |
| JsText.DoubleOfSmallNat | src/screens/LootTableExplorer.tsx:140 | integers below 2^53 are exact doubles |
| JsText.DoubleOfLargeNat | src/screens/LootTableExplorer.tsx:140 | rounding an integer of at least 2^53 gives at least 2^52 |
| JsText.DoubleOfTwo53Plus1 | src/screens/LootTableExplorer.tsx:140 | 2^53 + 1 is a tie and rounds to the even neighbour 2^53 |
| JsText.ParseIntNumber | src/screens/LootTableExplorer.tsx:140 | the number `parseInt` returns: NaN exactly when no digits are read, otherwise the signed digits rounded to a double, and an infinite result has the sign of the digits |
| JsText.ParseIntNumberExact | src/screens/LootTableExplorer.tsx:140 | digits worth less than 2^53 in magnitude give exactly that number |
| JsText.ParseIntNumberCases | src/screens/RngPlayground.tsx:68 | rounding keeps the class of the value: non-positive digits stay non-positive (or -Infinity), digits below 2^53 stay exact, and digits of at least 2^53 stay at least 2^52 (or +Infinity) |
| JsText.DecimalOfNatToString | src/screens/DiceCalculator.tsx:20-22 | reading the decimal digits of a printed number gives the number back |
| JsText.Utf16 | src/screens/RngPlayground.tsx:19-20 | the code units `charCodeAt` returns are 16-bit, at least one per character |
| JsText.Utf16Append | src/screens/RngPlayground.tsx:19-20 | the code units of a concatenation are the code units of its parts, in order |
| SortSteps.Swap | src/screens/AlgorithmsPlayground.tsx:170 | the destructuring swap exchanges two positions, keeps the rest and permutes the contents |
| SortSteps.PairsBeforeClosed | src/screens/AlgorithmsPlayground.tsx:167-168 | the first i bubble passes over n elements make i(2n-i-1)/2 comparisons, so all n passes make n(n-1)/2 |
| SortSteps.SnapshotPermutes | src/screens/AlgorithmsPlayground.tsx:166-171 | every snapshot of a trace is a permutation of the input, of the same length |
| SortSteps.TracePermutes | src/screens/AlgorithmsPlayground.tsx:165-202 | every yielded array, and the final one, is a permutation of the input |
| SortSteps.TraceDeterminedByLefts | src/screens/AlgorithmsPlayground.tsx:167-171 | for bubble and insertion sort, the compared positions determine the whole trace: two traces with the same compared positions are equal |
| SortSteps.BubbleStep | src/screens/AlgorithmsPlayground.tsx:169-171 | one comparison `[j, j+1]` swaps exactly when the left value is greater, keeps the placed suffix and carries the pass maximum right |
| SortSteps.BubblePass | src/screens/AlgorithmsPlayground.tsx:168-172 | pass i compares (0,1) … (n-2-i, n-1-i) in order, and afterwards the last i+1 positions are sorted and hold the largest values |
| SortSteps.BubbleSortSteps | src/screens/AlgorithmsPlayground.tsx:165-173 | the steps form a bubble trace with exactly n(n-1)/2 steps in the pass schedule, placing the suffixes pass by pass; no steps exactly for n ≤ 1, and the last array is sorted |
| SortSteps.SelectionSwap | src/screens/AlgorithmsPlayground.tsx:184-187 | the swap `[i, min]` at the end of a pass brings the smallest remaining value to position i |
| SortSteps.SelectionScanShape | src/screens/AlgorithmsPlayground.tsx:179-187 | the pass schedule from position i: a comparison `[min, j]` for each later j, where min is the first position of the least value seen so far, then one swap `[i, min]` exactly when a smaller value than a[i] lies to the right, min being the first least position |
| SortSteps.FindMin | src/screens/AlgorithmsPlayground.tsx:180-183 | the inner loop yields the comparison steps of the schedule in order and ends with the first position of the least remaining value |
| SortSteps.SelectionPass | src/screens/AlgorithmsPlayground.tsx:178-187 | pass i yields exactly its schedule `SelectionScan`: n-1-i comparison steps and at most one swap step, none in the last pass, and the sorted prefix grows by one |
| SortSteps.SelectionSortSteps | src/screens/AlgorithmsPlayground.tsx:176-189 | the steps are exactly the pass schedules run one after another (`SelectionPasses`): a selection trace whose comparison steps number n(n-1)/2, with at most n-1 swap steps; no steps exactly for n ≤ 1, and the last array is sorted |
| SortSteps.InsertionSwap | src/screens/AlgorithmsPlayground.tsx:196-197 | each swap exchanges the adjacent positions `[j-1, j]`, moving the element one place left and keeping the rest of the prefix sorted |
| SortSteps.InsertionSinkSwaps | src/screens/AlgorithmsPlayground.tsx:195-199 | while element i sinks, the k-th step swaps `[j-1-k, j-k]`, at most j of them |
| SortSteps.InsertionPassShape | src/screens/AlgorithmsPlayground.tsx:194-200 | the pass schedule of position i is the single non-swap step `[i-1, i]` exactly when a[i-1] ≤ a[i]; otherwise it is 1 to i swaps `[i-1-k, i-k]` |
| SortSteps.SinkLoop | src/screens/AlgorithmsPlayground.tsx:195-199 | the while loop yields the swap steps of the schedule in order and stops at the first j with j = 0 or a[j-1] ≤ a[j], the prefix sorted |
| SortSteps.InsertionPass | src/screens/AlgorithmsPlayground.tsx:194-200 | pass i yields exactly its schedule `InsertionSink`, at least one step, leaves positions 0..i sorted, and yields the single non-swap step exactly when element i was already in place |
| SortSteps.InsertionSortSteps | src/screens/AlgorithmsPlayground.tsx:191-202 | the steps are exactly the pass schedules run one after another (`InsertionPasses`): an insertion trace; no steps exactly for n ≤ 1, and the last array is sorted |
| SortSteps.StartSort | src/screens/AlgorithmsPlayground.tsx:234-242 | selection and insertion run for their own ids and bubble for any other id; the steps are exactly the chosen generator's schedule (the bubble pass schedule, `SelectionPasses` or `InsertionPasses`); the run sorts a copy and yields a permutation of the values |
| SortSteps.GenerateArray | src/screens/AlgorithmsPlayground.tsx:204-206 | `generateArray(size)` has exactly `size` values, each in 1..100 |
| Mix32.DrawValue | src/screens/RngPlayground.tsx:13 | each draw is its numerator divided by 2^32, so it lies in [0, 1) |
| Mix32.DrawsNext | src/screens/RngPlayground.tsx:10-14 | one more call appends the numerator of the state it reaches |
| Mix32.DrawsAdd | src/screens/RngPlayground.tsx:10-14 | k + m draws are the first k draws followed by m draws from the state reached |
| Mix32.DrawsPrefix | src/screens/RngPlayground.tsx:10-14 | a shorter run from the same state is a prefix of a longer one, so the same seed always gives the same draws |
| Mix32.FloatAt | src/screens/LootTableExplorer.tsx:71-75 | the i-th draw of a run is the float of the state after i + 1 calls |
| Rng.SeededRng.constructor | src/screens/RngPlayground.tsx:8-9 | the state starts at seed + 0x6D2B79F5, wrapped to 32 bits |
| Rng.SeededRng.Next | src/screens/RngPlayground.tsx:10-14 | one call mixes the state without adding the constant again and returns a value in [0, 1) |
| Rng.Values | src/screens/RngPlayground.tsx:35-38 | `values` has exactly `count` entries: the first `count` draws of a fresh generator for the seed |
| Rng.HashString | src/screens/RngPlayground.tsx:17-25 | the shift-and-subtract loop computes the 31-polynomial hash of the UTF-16 code units, in [-2^31, 2^31) |
| Rng.HashStep | src/screens/RngPlayground.tsx:21-22 | `((h << 5) - h) + c`, then `\|= 0`, is 31h + c wrapped to signed 32 bits |
| Rng.HashAppend | src/screens/RngPlayground.tsx:17-25 | appending a character below U+10000 gives 31·hash + its code, wrapped; the empty string hashes to 0 |
| Rng.BucketOf | src/screens/RngPlayground.tsx:44 | the bucket index is in 0..19, and it is the bucket whose twentieth of [0, 1) holds the draw |
| Rng.Histogram | src/screens/RngPlayground.tsx:41-48 | 20 counters, each the number of values in its bucket, summing to the number of values |
| Rng.BucketCountsTotal | src/screens/RngPlayground.tsx:41-48 | every draw lands in exactly one bucket, so the counts add up to the number of draws |
| Rng.CountFromInput | src/screens/RngPlayground.tsx:68 | the count clamp is in [1, 10000]: NaN and a non-positive number give 1, an in-range number is kept, a larger one gives 10000 |
| Rng.CountFromPrinted | src/screens/RngPlayground.tsx:68 | a typed count in range reads back, and a larger one is capped at 10000 |
| Rng.CountFromBlankOrZero | src/screens/RngPlayground.tsx:68 | input without any digit (empty or non-numeric) and "0" give 1 |
| Loot.LootRng.constructor | src/screens/LootTableExplorer.tsx:69-70 | the state starts at the raw seed's 32 bits, with no offset; a NaN seed gives 0 |
| Loot.LootRng.Next | src/screens/LootTableExplorer.tsx:71-75 | one call mixes the state and returns a value in [0, 1) |
| Loot.SeedStateCases | src/screens/LootTableExplorer.tsx:70-72 | a NaN or infinite seed behaves as 0, and finite seeds equal modulo 2^32 give the same generator |
| Loot.PickIndex | src/screens/LootTableExplorer.tsx:81-85 | the walk stops at the first item whose cumulative weight reaches the roll, or falls back to the last item |
| Loot.Picked | src/screens/LootTableExplorer.tsx:79-85 | for a non-empty table the roll returns an item of the table |
| Loot.RollTable | src/screens/LootTableExplorer.tsx:78-86 | the subtracting loop returns the item the cumulative walk picks; an empty table returns none (`table[-1]` is undefined) |
| Loot.PickStops | src/screens/LootTableExplorer.tsx:81-85 | an index whose earlier cumulative weights fall short and which reaches the roll, or is last, is the pick |
| Loot.PickInBand | src/screens/LootTableExplorer.tsx:80-84 | with non-negative weights, a positive total and a draw in (0, 1), the pick k satisfies cumBefore(k) < roll ≤ cumThrough(k) |
| Loot.DropAt | src/screens/LootTableExplorer.tsx:105-106 | drop i is the item that draw i picks |
| Loot.TallyStep | src/screens/LootTableExplorer.tsx:107-111 | tallying one more drop keeps the counts, the value total, and the minimum and maximum exact |
| Loot.InitCounts | src/screens/LootTableExplorer.tsx:103 | every table name starts at count 0, and no other name is present |
| Loot.TalliesInit | src/screens/LootTableExplorer.tsx:98-103 | before any run the counts are 0, the total is 0, and the minimum and maximum are +∞ and −∞ |
| Loot.RunStep | src/screens/LootTableExplorer.tsx:105-111 | run i extends the drops by the pick of draw i and keeps the tallies exact |
| Loot.Simulate | src/screens/LootTableExplorer.tsx:96-115 | the result reports `runs` runs; the counts, total, minimum and maximum are exactly those of the items the draws pick (seeded stream, or the `Math.random` draws) |
| Loot.CountsSumToRuns | src/screens/LootTableExplorer.tsx:103-107 | with distinct names, every table name has a count and the counts add up to `runs` |
| Loot.PresetsWellFormed | src/screens/LootTableExplorer.tsx:31-67 | every preset is non-empty, names its items distinctly, has non-negative weights and weighs 100 in total |
| Loot.SeedFromInput | src/screens/LootTableExplorer.tsx:140 | blank input means no seed; otherwise the seed is the number `parseInt(input, 10)` returns, rounded to a double |
| Loot.SeedFromPrinted | src/screens/LootTableExplorer.tsx:140 | a typed non-negative integer seeds with its nearest double: itself below 2^53, and 2^53 + 1 seeds like 0 because it rounds to 2^53 |
| Loot.SeedFromText | src/screens/LootTableExplorer.tsx:140 | a non-numeric seed is NaN, which the generator treats as 0 |
| Loot.RunsFromInput | src/screens/LootTableExplorer.tsx:201 | the run count is in [1, 100000]: NaN and a non-positive number give 1, an in-range number is kept, a larger one gives 100000 |
| Loot.RunsFromPrinted | src/screens/LootTableExplorer.tsx:201 | a typed run count in range reads back, and a larger one is capped at 100000 |
| Loot.RunsFromBlankOrZero | src/screens/LootTableExplorer.tsx:201 | input without any digit (empty or non-numeric) and "0" give one run |
| DiceNotation.ShapeUnique | src/screens/DiceCalculator.tsx:17 | where the notation's groups sit in a matching text is determined by the text |
| DiceNotation.ParseDiceSucceedsIffShape | src/screens/DiceCalculator.tsx:16-18 | the parser succeeds exactly on texts whose trimmed form has the shape `(\d+)?[dD]\d+([+-]\d+)?` |
| DiceNotation.ParseDiceOfShape | src/screens/DiceCalculator.tsx:19-23 | on a matching text the parser returns the triple the groups stand for |
| DiceNotation.ParseOfParts | src/screens/DiceCalculator.tsx:17-23 | text assembled from count digits, a die letter, sides digits and an optional signed modifier parses to those values, with count 1 and modifier 0 when absent |
| DiceNotation.ParsePrint | src/screens/DiceCalculator.tsx:17-23 | printing a triple as `<count>d<sides>±<\|modifier\|>` and parsing it gives the triple back |
| DiceNotation.PresetsParse | src/screens/DiceCalculator.tsx:66-73 | every preset chip parses, e.g. "3d8+5" to (3, 8, 5) |
| DiceNotation.DefaultsParse | src/screens/DiceCalculator.tsx:20-22 | "d20" gives (1, 20, 0), "0d6" and "2d0" are accepted with 0, and "2D6-1" gives (2, 6, -1) |
| DiceNotation.ParseIgnoresSurroundingSpace | src/screens/DiceCalculator.tsx:17 | surrounding whitespace does not change the parse |
| DiceNotation.NonNotationRejected | src/screens/DiceCalculator.tsx:18 | "not-dice", "2d", "2d6+" and "2d6x" give null |
| DiceCalculator.WaysSupport | src/screens/DiceCalculator.tsx:38-48 | a face total with some combination lies between count and count·sides |
| DiceCalculator.WaysCover | src/screens/DiceCalculator.tsx:38-48 | with at least one face, every total in [count, count·sides] has a combination |
| DiceCalculator.OneDie | src/screens/DiceCalculator.tsx:38-48 | for 1dN, each of 1..N has exactly one combination |
| DiceCalculator.NoFacesNoWays | src/screens/DiceCalculator.tsx:44-46 | dice with no faces reach no leaf |
| DiceCalculator.TotalWays | src/screens/DiceCalculator.tsx:37-48 | the combination counts add up to sides^count, so the masses sum to one |
| DiceCalculator.WaysSymmetric | src/screens/DiceCalculator.tsx:38-48 | the counts are symmetric about the midpoint count·(sides+1)/2 |
| DiceCalculator.MeanOfWays | src/screens/DiceCalculator.tsx:51 | the mean total of the exact distribution is count·(sides+1)/2, the mean the approximation uses |
| DiceCalculator.Recurse | src/screens/DiceCalculator.tsx:38-47 | `recurse(depth, sum)` adds, at each outcome, the number of face sequences of the remaining dice that reach it, and adds no other key |
| DiceCalculator.NormalSupport | src/screens/DiceCalculator.tsx:54-58 | the approximation loop sets exactly the keys min..max |
| DiceCalculator.ExactSupport | src/screens/DiceCalculator.tsx:36-48 | with sides ≥ 1 the exact keys are exactly count+modifier .. count·sides+modifier |
| DiceCalculator.ExactNoFaces | src/screens/DiceCalculator.tsx:44-48 | sides 0 with at least one die gives an empty map |
| DiceCalculator.ExactNoDice | src/screens/DiceCalculator.tsx:39-42 | count 0 gives the single key `modifier` |
| DiceCalculator.ExactTotal | src/screens/DiceCalculator.tsx:37-48 | the counts over the key range add up to sides^count |
| DiceCalculator.CalculateDistribution | src/screens/DiceCalculator.tsx:30-62 | exact exactly when count ≤ 4 and sides ≤ 20, with counts that are the combination counts, keys in range, sum sides^count and the 0d/d0 edge cases; otherwise the keys are exactly min..max |
| DiceCalculator.MaxProbability | src/screens/DiceCalculator.tsx:86-93 | `maxProb` bounds every mass and is one of them, or 0 |
| DiceCalculator.Roll | src/screens/DiceCalculator.tsx:27 | each roll is in 1..sides, and 1 when there are no sides |
| DiceCalculator.RollDice | src/screens/DiceCalculator.tsx:26-28 | `count` rolls, each in 1..sides |
| DiceCalculator.SumOfBounds | src/screens/DiceCalculator.tsx:98 | a sum of rolls lies between all ones and all top faces |
| DiceCalculator.RollOf | src/screens/DiceCalculator.tsx:97-106 | `count` rolls in 1..sides whose sum plus the modifier is the total, which lies in [min, max]; min and max as displayed, and the average is their midpoint |
| DiceCalculator.HandleRoll | src/screens/DiceCalculator.tsx:95-107 | an unparsed notation leaves the last roll alone (None); a parsed one rolls the parsed dice |
| DiceCalculator.ZeroSidesExceedMax | src/screens/DiceCalculator.tsx:97-104 | for `Nd0` with N ≥ 1 the total exceeds the displayed maximum |
| InputFormatter.PhoneDigits | src/screens/InputFormatter.tsx:42-57 | the digits of a formatted number are exactly the kept digits: the first 10 for "+1", the first 11 for "+44", all of them otherwise |
| InputFormatter.PhoneIdempotent | src/screens/InputFormatter.tsx:42-57 | formatting a formatted phone number changes nothing |
| InputFormatter.PhoneLayoutUs | src/screens/InputFormatter.tsx:44-48 | under "+1", up to 3 kept digits print bare; 4 to 6 put "(" at 0, ")" at 4 and a space at 5; 7 to 10 also put "-" at 9; every other character is a digit, and the length is the digit count plus the separators |
| InputFormatter.PhoneLayoutUk | src/screens/InputFormatter.tsx:50-54 | under "+44", up to 4 kept digits print bare; 5 to 7 put a space at 4; 8 to 11 also put a space at 8 (groups of 4, 3 and the rest); every other character is a digit |
| InputFormatter.UsDigits | src/screens/InputFormatter.tsx:44-48 | under "+1", ten or more digits print as (AAA) BBB-CCCC from the first ten |
| InputFormatter.UsParts | src/screens/InputFormatter.tsx:44-48 | digits after the tenth are dropped |
| InputFormatter.PhoneEdgeTests | src/screens/InputFormatter.tsx:117-124 | each phone example prints as expected under "+1" |
| InputFormatter.PhoneEdgeTestsPass | src/screens/InputFormatter.tsx:117-124 | every entry `getEdgeTests` lists for phones passes under "+1", whatever the date pattern |
| InputFormatter.GroupFoursSpaces | src/screens/InputFormatter.tsx:61 | on digits, the `(\d{4})(?=\d)` replacement puts a space at every fifth position and nowhere else |
| InputFormatter.GroupFoursDigits | src/screens/InputFormatter.tsx:61 | the replacement keeps the digits in order and never ends in a space |
| InputFormatter.CardShape | src/screens/InputFormatter.tsx:59-62 | the card mask keeps the first 16 digits, grouped by four without a trailing space, and is idempotent |
| InputFormatter.CardSix | src/screens/InputFormatter.tsx:59-62 | six digits print as a group of four and the two left over, e.g. '4111 11' |
| InputFormatter.CardEdgeTests | src/screens/InputFormatter.tsx:125-131 | each credit-card example prints as expected |
| InputFormatter.CardEdgeTestsPass | src/screens/InputFormatter.tsx:125-131 | every entry `getEdgeTests` lists for cards passes, whatever the country code and date pattern |
| InputFormatter.SsnDigits | src/screens/InputFormatter.tsx:97-102 | the SSN mask keeps the first nine digits, in order, and is idempotent |
| InputFormatter.SsnLayout | src/screens/InputFormatter.tsx:97-102 | up to 3 kept digits print bare; a hyphen stands at 3 exactly when there are more than 3 digits and at 6 exactly when there are more than 5; every other character is a digit, so the digits group 3-2-4 |
| InputFormatter.SsnEdgeTests | src/screens/InputFormatter.tsx:145-151 | each SSN example prints as expected |
| InputFormatter.SsnEdgeTestsPass | src/screens/InputFormatter.tsx:145-151 | every entry `getEdgeTests` lists for SSNs passes, whatever the country code and date pattern |
| InputFormatter.Separator | src/screens/InputFormatter.tsx:66 | the separator is one of '/', '-' and '.' |
| InputFormatter.SplitParts | src/screens/InputFormatter.tsx:67 | the split has at least one part, and no part holds a separator |
| InputFormatter.FormatDate | src/screens/InputFormatter.tsx:64-79 | the loop's result is the chunked date `DateOf` |
| InputFormatter.JoinChunks | src/screens/InputFormatter.tsx:69-78 | the loop appends each part's chunk, separated, and stops at the first empty chunk |
| InputFormatter.WriteChunk | src/screens/InputFormatter.tsx:72-76 | one turn either stops on an empty chunk or appends the separated chunk and moves past its part |
| InputFormatter.ChunksDigits | src/screens/InputFormatter.tsx:71-77 | the date's digits are the input's digits up to where the chunks stop |
| InputFormatter.DateIdempotent | src/screens/InputFormatter.tsx:64-79 | formatting a formatted date with the same pattern changes nothing |
| InputFormatter.DateOfNoDigits | src/screens/InputFormatter.tsx:73-74 | input without digits gives an empty date |
| InputFormatter.DateFour | src/screens/InputFormatter.tsx:71-77 | under MM/DD/YYYY, four digits print as MM/DD and the loop stops at the empty year |
| InputFormatter.DateEdgeTests | src/screens/InputFormatter.tsx:132-137 | each date example prints as expected under MM/DD/YYYY |
| InputFormatter.DateEdgeTestsPass | src/screens/InputFormatter.tsx:132-137 | every entry `getEdgeTests` lists for dates passes under MM/DD/YYYY, whatever the country code |
| InputFormatter.Formatted | src/screens/InputFormatter.tsx:169-178 | the selected mask; currency and custom are outside the model (None) |
| InputFormatter.TestResults | src/screens/InputFormatter.tsx:182-195 | one result per edge test, in order, whose `actual` is the mask's output and whose `pass` says exactly whether it equals the expectation |
| AssetChecker.ToLower | src/screens/AssetChecker.tsx:55 | lower-casing keeps the length and maps each character |
| AssetChecker.DashSpacesShape | src/screens/AssetChecker.tsx:64 | the hyphenated name holds no whitespace, and a name without whitespace is kept |
| AssetChecker.RunMembers | src/screens/AssetChecker.tsx:48-99 | an issue is pushed for a file exactly when some check fired and made that issue |
| AssetChecker.FileIssuesPaths | src/screens/AssetChecker.tsx:46-99 | per-file issues name the file's path and are never duplicates |
| AssetChecker.FileIssuesErrors | src/screens/AssetChecker.tsx:58-66 | a file draws one error exactly when its name holds whitespace; it is the whitespace issue, suggesting a whitespace-free name |
| AssetChecker.FileIssuesUpper | src/screens/AssetChecker.tsx:49-57 | the uppercase warning fires exactly when the name has an uppercase letter and no '@', suggesting the lower-cased name |
| AssetChecker.FileIssuesSpecial | src/screens/AssetChecker.tsx:67-74 | the special-character warning fires exactly when a character is outside `[A-Za-z0-9._@-]` |
| AssetChecker.FileIssuesRetinaAndSize | src/screens/AssetChecker.tsx:76-99 | "missing @2x" fires exactly for an image that is not a @2x or @3x variant and whose `base@2x.ext` is absent; the large-file warning fires exactly when size > 500·1024 |
| AssetChecker.StripDirBasename | src/screens/AssetChecker.tsx:102 | on a one-line name, `replace(/.*\//, '')` keeps the part after the last '/' |
| AssetChecker.KeyInjective | src/screens/AssetChecker.tsx:102 | two files share a key exactly when they have the same size and the same stripped name |
| AssetChecker.KeysGroup | src/screens/AssetChecker.tsx:103-104 | a key is in `nameMap` exactly when its group is non-empty |
| AssetChecker.KeysDistinct | src/screens/AssetChecker.tsx:103 | no key is inserted twice |
| AssetChecker.Track | src/screens/AssetChecker.tsx:102-104 | one pass inserts a new key at the end, with an empty group, then pushes the file onto its group |
| AssetChecker.GroupDupsShape | src/screens/AssetChecker.tsx:109-117 | a group of one draws nothing; in a larger group each later file, in input order, draws one warning naming the first |
| AssetChecker.PushGroup | src/screens/AssetChecker.tsx:109-117 | one group's pass appends exactly that group's duplicate warnings |
| AssetChecker.PushDuplicates | src/screens/AssetChecker.tsx:108-119 | the duplicate loop appends the groups' warnings in key insertion order |
| AssetChecker.AnalyzeFiles | src/screens/AssetChecker.tsx:40-122 | the two loops return the per-file issues in input order, followed by the duplicate warnings |
| AssetChecker.DuplicatesLast | src/screens/AssetChecker.tsx:40-122 | every duplicate warning comes after every per-file issue |
| AssetChecker.GroupSizesAll | src/screens/AssetChecker.tsx:101-105 | every file lies in exactly one group |
| AssetChecker.DuplicateCount | src/screens/AssetChecker.tsx:107-119 | there are as many duplicate warnings as files minus distinct keys |
| AssetChecker.SeverityCountsSum | src/screens/AssetChecker.tsx:152-154 | the error, warning and info counts add up to the number of issues |
| AssetChecker.AnalysisErrorCount | src/screens/AssetChecker.tsx:152 | `errorCount` is the number of files whose name holds whitespace |
| AssetChecker.OfCategoryMembers | src/screens/AssetChecker.tsx:150 | the category filter keeps exactly the issues of that category |
| AssetChecker.OfCategoryAppend | src/screens/AssetChecker.tsx:150 | the filter keeps the order: it distributes over concatenation |
| AssetChecker.FilterIssues | src/screens/AssetChecker.tsx:148-150 | 'all' shows the issues unchanged; a category shows exactly its issues |
| AssetChecker.FilterDuplicates | src/screens/AssetChecker.tsx:148-150 | the duplicates filter shows exactly the duplicate loop's warnings, in order |
| AssetChecker.SplitJoinLines | src/screens/AssetChecker.tsx:156-159 | the rename script splits back at newlines into the suggestions, in issue order |
| Motion.Pick | src/screens/MotionSandbox.tsx:39 | `Math.floor(Math.random() * (i + 1))` is an index in 0..i |
| Motion.SwapPermutes | src/screens/MotionSandbox.tsx:40 | the swap permutes the sequence |
| Motion.ShuffledPermutes | src/screens/MotionSandbox.tsx:36-43 | whatever each draw picks, the result is a permutation of the input, and length 0 or 1 comes back unchanged |
| Motion.Shuffle | src/screens/MotionSandbox.tsx:36-43 | the loop works on a fresh copy, leaves the argument alone and returns the shuffled sequence |
| Motion.ItemIdsDistinct | src/screens/MotionSandbox.tsx:49 | ids `item-i` are equal exactly for equal i |
| Motion.GenerateItems | src/screens/MotionSandbox.tsx:47-53 | n items; item i has id `item-i`, label `i+1` and colour `COLORS[i mod 8]` |
| Motion.WithoutId | src/screens/MotionSandbox.tsx:242 | the filter keeps exactly the items with another id |
| Motion.WithoutIdAppend | src/screens/MotionSandbox.tsx:242 | the filter keeps the survivors in order |
| Motion.WithoutAbsentId | src/screens/MotionSandbox.tsx:242 | removing an absent id changes nothing |
| Motion.TaggedDistinct | src/screens/MotionSandbox.tsx:230-243 | items made from increasing counter values have pairwise distinct ids |
| Motion.ListDemo.constructor | src/screens/MotionSandbox.tsx:230-231 | the list starts as `generateItems(5)` with the counter at 5 |
| Motion.ListDemo.AddItem | src/screens/MotionSandbox.tsx:233-239 | appends the item for the current counter, whose id no listed item has, and bumps the counter, so ids never repeat |
| Motion.ListDemo.RemoveItem | src/screens/MotionSandbox.tsx:241-243 | removes exactly the items with that id, keeps the rest in order and leaves the counter |
| Registry.SortByOrderSpec | src/tools/registry.ts:174 | the sort by `order` is a permutation, ordered by `order`, and stable among equal orders |
| Registry.SortByOrderSorted | src/tools/registry.ts:174 | a sequence already in order comes back unchanged |
| Registry.ActiveToolsSpec | src/tools/registry.ts:171-175 | the active tools are exactly the registry's tools not coming soon, each as often as in the registry, by order |
| Registry.AllToolsSpec | src/tools/registry.ts:177-179 | all tools: a permutation of the registry, by order, stable among equal orders |
| Registry.GetTool | src/tools/registry.ts:181-183 | the first tool with that id, or none exactly when no tool has it |
| Registry.GetToolRegistered | src/tools/registry.ts:181-183 | with distinct ids, looking up a registered tool's id finds that tool |
| Registry.RegistryShape | src/tools/registry.ts:14-169 | the shipped registry has distinct ids, increasing orders and no coming-soon tool |
| Registry.ShippedQueries | src/tools/registry.ts:171-179 | both queries return the shipped registry as it stands |
| Feedback.WithoutEntry | src/screens/FeedbackWidget.tsx:70 | the filter keeps exactly the entries with another id |
| Feedback.WithoutEntryAppend | src/screens/FeedbackWidget.tsx:70 | the filter keeps the survivors in order |
| Feedback.WithoutAbsentEntry | src/screens/FeedbackWidget.tsx:70 | removing an absent id changes nothing |
| Feedback.Capped | src/screens/FeedbackWidget.tsx:103 | `slice(0, MAX_CHARS)` is a prefix of at most 500 characters, the value itself when it fits |
| Feedback.FeedbackWidget.constructor | src/screens/FeedbackWidget.tsx:50-51 | the widget opens with the stored entries and an empty input |
| Feedback.FeedbackWidget.SetInput | src/screens/FeedbackWidget.tsx:103 | the input becomes the typed value capped at 500 characters; the entries stay |
| Feedback.FeedbackWidget.AddEntry | src/screens/FeedbackWidget.tsx:57-67 | blank input changes nothing; otherwise the trimmed text becomes a new first entry, the old entries follow in order, and the input is cleared |
| Feedback.FeedbackWidget.HandleKeyDown | src/screens/FeedbackWidget.tsx:87-92 | Enter without Shift adds the entry; any other key changes nothing |
| Feedback.FeedbackWidget.RemoveEntry | src/screens/FeedbackWidget.tsx:69-71 | removes exactly the entries with that id and keeps the rest in order |
| Feedback.FeedbackWidget.ClearAll | src/screens/FeedbackWidget.tsx:73-75 | no entries are left |
| LazyCache.WrapperPerLoader | src/App.tsx:19-31 | two loaders share a wrapper exactly when they are the same loader |
| LazyCache.LoaderCache.constructor | src/App.tsx:19-22 | the cache starts empty |
| LazyCache.LoaderCache.GetLazy | src/App.tsx:24-31 | a hit returns the stored wrapper and changes nothing; a miss builds one wrapper, stores it under the loader and returns it; no entry is replaced or removed, and at most one key is added |
| LazyCache.LoaderCache.RenderRoutes | src/App.tsx:54-67 | each route's component is its loader's cached wrapper; equal loaders get the same wrapper, different loaders different ones, and a render with known loaders changes nothing |

## Left out

- `parseInt` of the RNG count, the loot seed and the loot run count rounds its digits to the nearest double, ties to even (`JsText.DoubleOfNat`). The licence ECMAScript gives implementations to replace digits after the 20th significant one is not modelled.
- DiceNotation.ParseDice: reads count, sides and modifier as exact integers; above 2^53 `parseInt` would round them to a double (`"9007199254740993d6"` has count 9007199254740992 in JavaScript), which the model does not do, because the distribution and roll code take these values as integers.
- Floating point is modelled by `real`, without rounding:
  - draws (numerator / 2^32 is exact in a double);
  - loot weights and value sums;
  - roll averages.
- The masses of the exact distribution are integer combination counts. The float masses `1/total` are left out.
- The normal approximation's densities, the expected values, variances and bad-streak figures are left out. So is all `toFixed` text, apart from the size in the large-file description.
- `Math.random`, `crypto.randomUUID()` and `Date.now()` are parameters:
  - a sequence of draws in [0, 1);
  - an id string;
  - an integer timestamp.
- `localStorage` loading and saving, `exportJson`, the Markdown download and the PR checklist text are I/O or display text.
  - The feedback widget takes its stored entries as a constructor argument.
- `formatCurrency` depends on `Intl.NumberFormat`, and `formatCustom` compiles user-supplied regular expressions. Both are outside the model, where the mask gives None.
- `React.lazy` is a constructor that numbers the wrappers it builds. The route elements and the router are left out.
- Sort playback timers, the FLIP/WAAPI animations of the motion sandbox and the other demo tabs are presentation.
- Generators are modelled by the full sequence of steps they yield. Pausing and resuming a generator is not modelled.
- Only the manifest fields the queries use, plus the id, title, route and category, are kept. Icons, colours, descriptions, tags and loader functions are left out.
- `getEdgeTests` for currency and custom formats: their expectations depend on the parts left out above.
- Feedback.Capped: counts characters (code points), not UTF-16 code units, so a text with characters above U+FFFF may keep more than `slice(0, 500)` would.
- AssetChecker.ToLower: lower-cases ASCII letters only; `toLowerCase` on other scripts is not modelled.
- AssetChecker.StripDirBasename: stated for one-line names; the multi-line behaviour of `.*` is modelled by `StripDir` but has no lemma.
- Loot.Simulate: requires a non-empty table. With an empty table, `rollTable` returns `undefined` and `drop.name` throws, so no run completes.
- DiceCalculator.HandleRoll: states its result through `RollOf`, whose contract holds the roll's properties.
- SortSteps.InsertionSortSteps: does not state a step count (the count depends on the number of inversions).
- Rng.HashAppend: stated for characters below U+10000; larger characters contribute two code units, which `Utf16Append` covers.
