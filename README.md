# Game code list: a Dafny model

This project models the in-memory logic of the game-code browser in
`lib/github-api.ts`. The program downloads one JSON document that groups
redeem codes by game. It then works on that list in memory:

- it flattens the document into one list of `GameCode` records, scoring each
  code's credibility on the way;
- it searches the list by a free-text query;
- it filters the list by game name and by code type;
- it lists the distinct game names in sorted order;
- it sorts a copy of the list by publish date, by credibility or by expiry.

The model is split into these modules:

- `GameCodes` (`game_codes.dfy`):
  - the response and record types;
  - the credibility score, as a specification function and as the step-by-step
    method the source runs;
  - the flattening loop, proved to produce the records of `Flatten`.
- `Queries` (`queries.dfy`): `searchCodes`, `filterByGame` and `filterByType`.
  Each returns its input for an empty argument and otherwise runs one `filter`
  pass.
- `GameList` (`game_list.dfy`): `getGameList`. The names are collected into a
  duplicate-free sequence, as a JavaScript `Set` holds them. That sequence is
  copied to an array and sorted in place.
- `CodeSort` (`code_sort.dfy`): `sortCodes`, its three comparators, and the
  finding below about the "expiring" comparator.
- Support modules:
  - `JsStrings` (`js_strings.dfy`): JavaScript's `includes`, `toLowerCase`,
    `trim` and default string order.
  - `Sequences` (`sequences.dfy`): `Array.prototype.filter`.
  - `Sorting` (`sorting.dfy`): `Array.prototype.sort` with a comparator. It is
    modelled as an in-place insertion sort on an array, and it requires the
    comparator to be consistent.
  - `Wrappers` (`wrappers.dfy`): `Option`.

Dates are modelled as timestamps, with `None` for a null or empty date string.
Apart from copying a date into the record and testing whether it is null or
empty, the source only parses it.

The source's score is not always in the range 0–100. A negative
`verificationCount` can bring it below 50 and even below 0. The thresholds
depend on the bonuses:

- With neither bonus, any negative count scores below 50, and a count of -11
  or less scores below 0.
- With both bonuses, a count of -1 still scores 65. Only a count of -5 or less
  scores below 50, and only -15 or less scores below 0.

The model follows the code: it proves the upper bound 100 and proves the
lower bound 50 only for a count that is not negative.

## Model

| member | source | states |
|---|---|---|
| GameCodes.CredibilityScore | lib/github-api.ts:100-122 | The score is at most 100. It is at least 50 when the verification count is not negative. It is exactly 100 if and only if the count is at least 6, the platform contains a trusted name and the review is "approved". The final cap at 100 never changes the sum of base and bonuses. |
| GameCodes.CalculateCredibilityScore | lib/github-api.ts:100-122 | The running-score computation ends with exactly `CredibilityScore` of the code's count, platform and review status. It therefore also meets that function's bounds. |
| GameCodes.CredibilityScoreExamples | lib/github-api.ts:105-121 | 10 verifications on "TapTap论坛" with review "approved" score 100. 0 verifications on "贴吧" with review "pending" score 50. With no bonus, counts of -1 and -11 score 45 and -5. With both bonuses ("Bilibili", "approved"), counts of -1, -5 and -15 score 65, 45 and -5. |
| GameCodes.GameRecords | lib/github-api.ts:76-90 | One record per code of a game, in code order. Each record carries the game's name and the code's fields unchanged. Its status is active exactly when the raw status is "active". Its type is permanent exactly when the raw type is "permanent". Its score is the credibility score. |
| GameCodes.FlattenLength | lib/github-api.ts:72-95 | The flat list holds as many records as there are codes over all games. |
| GameCodes.FlattenAt | lib/github-api.ts:75-92 | Code `j` of game `i` is transcribed at position `Offset(games, i) + j` of the flat list. That is, games are the outer order and codes the inner order. |
| GameCodes.TransformGitHubData | lib/github-api.ts:72-95 | The nested loop that appends records yields exactly `Flatten(data.games)`. Its length is the total number of codes. Every code of every game is transcribed at its offset. |
| Queries.SearchCodes | lib/github-api.ts:127-136 | A query that is blank after lower-casing and trimming returns the input. Otherwise the result keeps the input's order. It holds each record that matches the query, in game name, code or reward description, exactly as often as the input does, and holds no other record. |
| Queries.BlankQueryKeepsAll | lib/github-api.ts:128-129 | A query made only of whitespace returns the input unchanged. |
| Queries.SearchIgnoresQueryCase | lib/github-api.ts:128 | Searching with the lower-cased query gives the same result as searching with the query. |
| Queries.SearchIdempotent | lib/github-api.ts:127-136 | Searching the result of a search with the same query changes nothing. |
| Queries.FilterByGame | lib/github-api.ts:141-144 | No name or an empty name returns the input. Otherwise the result keeps input order and holds exactly the records whose game name equals the name (case-sensitive), each as often as in the input. |
| Queries.FilterByType | lib/github-api.ts:158-161 | "all" returns the input. Otherwise the result keeps input order and holds exactly the records of that code type, each as often as in the input. |
| Queries.FilterTransformedByGame | lib/github-api.ts:72-95 | Filtering the flattened response by the name of a game that no other game shares gives exactly that game's records, in the order of its codes. |
| Queries.RecordsOfOneGame | lib/github-api.ts:143 | The `filter` pass by a game name that only one game has picks out exactly that game's records from the flat list. |
| Queries.NoRecordsOfGame | lib/github-api.ts:143 | Filtering the flat list by a name that no game has finds nothing. |
| GameList.CollectGameNames | lib/github-api.ts:150-151 | Adding every record's game name to the set yields each game name of the list once, and nothing else. |
| GameList.GetGameList | lib/github-api.ts:149-153 | The game list is strictly ascending in the default string order. It holds a name if and only if some record belongs to that game. |
| GameList.SortedDistinctIsAscending | lib/github-api.ts:152 | A list of distinct names, sorted with the default order, is strictly ascending. |
| GameList.CompareStringsConsistent | lib/github-api.ts:152 | The default string order used by `sort()` is a consistent comparator. |
| GameList.AscendingIsUnique | lib/github-api.ts:149-153 | Two strictly ascending lists with the same names are equal. So the game list depends only on which games occur, not on the order of the records. |
| CodeSort.SortCodes | lib/github-api.ts:166-199 | The result is a permutation of the input. For "latest" it is ordered newest first, with an empty date counted as 0. For "credibility" it is highest score first, with a missing score counted as 0. For "expiring" it is soonest expiry first, with every undated record after every dated one. An input already in that order comes back unchanged, so sorting is idempotent. |
| CodeSort.CompareAsWritten | lib/github-api.ts:174-194 | What the sign of each comparator as written means. For "latest", negative exactly when `a` was published later and 0 exactly on equal times. For "credibility", negative exactly when `a` has the higher score and 0 exactly on equal scores. For "expiring", negative exactly when `a` has a date and `b` has none or a later one. It is 0 only for two equal dates, so never for two undated records. |
| CodeSort.ExpiringComparatorInconsistent | lib/github-api.ts:188-194 | The "expiring" comparator as written is not a consistent comparator. For two different records without an expiry date it answers 1 in both orders. |
| CodeSort.CompareCodes | lib/github-api.ts:174-194 | The corrected comparator gives the same answer as the written one everywhere except "expiring" with two undated records. Under "expiring" it answers 0 exactly when the two expiry dates are equal, both missing included. |
| CodeSort.OrderedAgreesWithSource | lib/github-api.ts:174-194 | A list in a key's order also satisfies the comparator as written. Every earlier record compares at most 0 against every later one, except two undated records under "expiring". |
| CodeSort.CompareCodesConsistent | lib/github-api.ts:172-196 | Each corrected comparator is consistent (antisymmetric and transitive), as `sort` needs. |
| CodeSort.OrderedIsSorted | lib/github-api.ts:172-196 | Being in a key's order is the same as being sorted by that key's comparator, in both directions. |
| JsStrings.ContainsIsSubstring | lib/github-api.ts:112 | `includes` holds if and only if the pattern occurs at some position of the string. |
| JsStrings.ToLower | lib/github-api.ts:128 | Lower-casing keeps the length and leaves no ASCII capital in the result. Each capital becomes the same letter in lower case, and every other character is unchanged. A string is its own lower case if and only if it has no ASCII capital. |
| JsStrings.ToLowerIdempotent | lib/github-api.ts:128 | Lower-casing twice is lower-casing once. |
| JsStrings.TrimStart | lib/github-api.ts:128 | The result is a suffix of the input. Only whitespace was dropped, and the result does not start with whitespace. |
| JsStrings.TrimEnd | lib/github-api.ts:128 | The result is a prefix of the input. Only whitespace was dropped, and the result does not end with whitespace. |
| JsStrings.Trim | lib/github-api.ts:128 | The result occurs in the input with only whitespace around it. It neither starts nor ends with whitespace. It is empty if and only if the input is all whitespace. |
| JsStrings.StrLessIrreflexive | lib/github-api.ts:152 | No string sorts before itself. |
| JsStrings.StrLessAsymmetric | lib/github-api.ts:152 | Two strings never sort each before the other. |
| JsStrings.StrLessTransitive | lib/github-api.ts:152 | The default string order is transitive. |
| JsStrings.StrLessTotal | lib/github-api.ts:152 | Of two different strings, one sorts before the other. |
| Sequences.FilterKeepsExactlyMatches | lib/github-api.ts:131-135 | `filter` keeps input order and keeps every element the predicate accepts, as often as it occurs. It keeps no other element. |
| Sequences.FilterConcat | lib/github-api.ts:143 | Filtering a concatenation is concatenating the filtered parts. |
| Sequences.FilterKeepsAll | lib/github-api.ts:160 | When every element passes, `filter` returns the same sequence. |
| Sequences.FilterDropsAll | lib/github-api.ts:143 | When no element passes, `filter` returns the empty sequence. |
| Sequences.FilterIdempotent | lib/github-api.ts:131-135 | Filtering twice with the same predicate is filtering once. |
| Sorting.SortInPlace | lib/github-api.ts:174-194 | Given a consistent comparator, the array ends sorted by it and is a permutation of its old contents. An array that was already sorted is left as it was. |
| Sorting.Insert | lib/github-api.ts:174-194 | One insertion step: with the first `i` elements sorted, it makes the first `i + 1` sorted and only permutes the array. It leaves the array untouched when element `i` already belongs at the end. |

## Left out

- `fetchGitHubData` (lib/github-api.ts:48-67): network I/O and JSON parsing. The model starts from an already parsed `GitHubDataResponse`.
- `version`, `lastUpdated`, `totalCodes` and each game's `codeCount`: the core never reads them, so they are not modelled.
- Date parsing: `new Date(s).getTime()` is not modelled. A date is the timestamp it parses to, and a null or empty date is `None`. A malformed date, which parses to `NaN`, is not modelled.
- JavaScript numbers: `verificationCount` and `credibilityScore` are unbounded integers. Fractional values, `NaN` and floating-point rounding are not modelled.
- JsStrings.ToLower: lowers ASCII letters only. Unicode case mapping, including mappings that change the length, is not modelled.
- JsStrings.StrLess: compares characters by code point, not by UTF-16 code unit. The two orders differ only for strings with characters outside the Basic Multilingual Plane.
- Sorting.SortInPlace: the engine's own sort algorithm is not modelled. It is replaced by an insertion sort, and only what `sort` promises for a consistent comparator is proved.
- CodeSort.SortCodes: stability is not stated, and nothing is proved about ties.
- CodeSort.SortCodes: the "expiring" sort uses the corrected comparator, because no sorted order exists for the comparator as written (see Findings).
- Aliasing: lists are values. That `searchCodes`, `filterByGame` and `filterByType` return the very input array in their identity cases cannot be told apart from returning an equal copy. That `sortCodes` leaves its input untouched holds trivially.
- `console.error` and thrown errors are only on the fetch path and are not modelled.

## Findings

| source | as written | input that shows it | evidently intended | confidence | as-written member | corrected member |
|---|---|---|---|---|---|---|
| lib/github-api.ts:188-194 | The "expiring" comparator answers 1 whenever `a` has no expiry date. It does so even when `b` has none either, so two undated records each compare greater than the other. | Two different records `x` and `y` whose `expireDate` is null: `compare(x, y) == 1` and `compare(y, x) == 1`. | Answer 0 when both dates are missing, so the comparator is consistent and the sort order among undated records is defined. | medium, not executed | CodeSort.ExpiringComparatorInconsistent | CodeSort.CompareCodesConsistent |
