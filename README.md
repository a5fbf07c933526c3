# OSRS group leaderboard — a Dafny model of its core

The system is a small Next.js site. It shows a fixed group of Old School
RuneScape players side by side. Its logic sits in four places, and this
project models and verifies each of them:

- **The hiscore record parser** (`src/lib/osrs.ts`).
  - `sanitizeRSN` makes a player name safe for the hiscore URL: trim, then
    collapse each whitespace run into `+`.
  - `parseIndexLite` turns the upstream `index_lite` text into a record
    keyed by the 25-skill catalogue, from `Overall` to `Sailing`.
  - `fetchOsrsStats` combines them with the upstream request.
- **The leaderboard** (`src/app/page.tsx`).
  - It builds one row per loaded player for the selected skill and sorts
    the rows in place with a key/direction comparator and a fixed
    tie-break chain.
  - It numbers the rows `groupRank` 1..n in display order.
  - It keeps the `(sortBy, sortDir)` header state and the `aria-sort`
    label derived from it.
  - It partitions the settled player fetches into loaded players and
    `Failed to load …` messages.
- **The experience chart** (`src/components/ExpOver30DaysChart.tsx`).
  - It builds the window of day labels and drops points older than the
    cutoff.
  - It sorts the rest by time and forward-fills them onto the daily grid
    with a monotone cursor.
  - Beside that: the window label, the x-tick thinning rule and the
    "has data" test.
- **The group time-series route** (`src/app/api/timeseries/group/route.ts`).
  - It parses the comma-separated username list and looks the players up.
  - It groups their snapshots by player id, then maps each snapshot to a
    point, with the defaults `exp 0`, `level 1` and `rank null`.

## Files

- `wrappers.dfy` — module `Wrappers`: `Option` and `Result`.
- `js_text.dfy` — module `JsText`: the JavaScript library behaviour the code
  relies on, stated once:
  - `String.prototype.trim` and the `\s` class, which share one whitespace
    set;
  - `split` and `join` on one separator character;
  - `Number(...)` on integer literals: `""` is 0, and anything else that is
    not an integer literal is NaN;
  - integer-to-decimal formatting;
  - `localeCompare`, taken as plain lexicographic order.
- `array_sort.dfy` — module `ArraySort`: `Array.prototype.sort` with a
  comparator.
  - It is modelled as an in-place, stable insertion sort on an `array`.
  - It is specified by the functional insertion sort `SortSpec`.
  - Proved about `SortSpec`: it is a permutation, sorted for a comparable
    comparator, stable, and unique for a total order.
- `osrs.dfy` — module `Osrs`: `src/lib/osrs.ts`.
- `leaderboard.dfy` — module `Leaderboard`: `src/app/page.tsx`.
  - The component state is the class `Leaderboard.Home`, whose fields are
    the `useState` slots.
- `exp_chart.dfy` — module `ExpChart`: `src/components/ExpOver30DaysChart.tsx`.
- `group_route.dfy` — module `GroupRoute`: `src/app/api/timeseries/group/route.ts`.
  - The two database queries are filters over input tables.

Timestamps are integer milliseconds and days are integer day numbers. The
end of day `d` is `d * 86400000 + 86399999`, i.e. 23:59:59.999 of that day.

A few facts about the code that shape the model:

- A payload shorter than 25 lines yields fewer entries; it is not rejected
  (`src/lib/osrs.ts:28-34`).
- A non-numeric field becomes NaN through `Number`, not an error.
- `-1` is an ordinary number everywhere; no value is treated specially.
- `groupRank` is a row's position in the displayed sort order
  (`src/app/page.tsx:114`).

## Model

| member | source | states |
|---|---|---|
| JsText.Trim | src/lib/osrs.ts:23 | the result has no whitespace at either end (`TrimStart`/`TrimEnd` state that exactly a whitespace prefix/suffix is removed) |
| JsText.TrimOfPadded | src/app/api/timeseries/group/route.ts:24 | trimming whitespace + t + whitespace gives back t whenever t is already trimmed |
| JsText.TrimIdempotent | src/app/api/timeseries/group/route.ts:24 | trimming twice is trimming once |
| JsText.Split | src/app/api/timeseries/group/route.ts:22-23 | `split` always yields at least one piece and no piece contains the separator |
| JsText.JoinSplit | src/lib/osrs.ts:27 | joining the pieces of a split with the separator restores the original text |
| JsText.SplitJoin | src/app/api/timeseries/group/route.ts:22-23 | splitting a join of separator-free pieces gives back exactly those pieces |
| JsText.ToNumber | src/lib/osrs.ts:33 | `Number` gives NaN exactly for a nonblank text that is not a signed decimal integer, and 0 for a blank one |
| JsText.IntToStringRoundTrip | src/lib/osrs.ts:33 | `Number` of a decimal integer's text is that integer |
| JsText.StrCompare | src/app/page.tsx:97 | the name comparison answers -1, 0 or 1 |
| JsText.StrCompareAntisymmetric | src/app/page.tsx:97 | name comparison is antisymmetric, and 0 exactly for equal names |
| JsText.StrCompareTransitive | src/app/page.tsx:111 | name comparison is transitive |
| ArraySort.Sort | src/app/page.tsx:95-112 | the in-place sort leaves the array equal to `SortSpec` of its old contents |
| ArraySort.InsertAt | src/app/page.tsx:95 | one insertion pass moves `a[i]` to its stable place in the sorted prefix and leaves the rest untouched |
| ArraySort.SortSpec | src/app/page.tsx:95 | the sorted sequence is a permutation of the input (same length, same multiset) |
| ArraySort.SortSpecSorted | src/app/page.tsx:95-112 | with a comparator under which any two elements are comparable, the result is sorted |
| ArraySort.SortSpecStable | src/app/page.tsx:95-112 | elements that compare equal keep their input order |
| ArraySort.SortedUnique | src/app/page.tsx:95-112 | under a total order, two sorted permutations of the same multiset are equal |
| Osrs.SkillsDistinct | src/lib/osrs.ts:2-6 | the catalogue has 25 distinct skills, `Overall` first and `Sailing` last |
| Osrs.SanitizeRsn | src/lib/osrs.ts:22-24 | the sanitized name contains no whitespace |
| Osrs.SanitizeTrimmed | src/lib/osrs.ts:22-24 | the sanitized name has no whitespace at either end, and is nonempty whenever the trimmed name is |
| Osrs.SanitizeIdempotent | src/lib/osrs.ts:22-24 | sanitizing twice is sanitizing once |
| Osrs.SanitizeKeepsVisible | src/lib/osrs.ts:22-24 | apart from whitespace and `+`, the sanitized name has exactly the input's characters, in order |
| Osrs.CollapseWhitespace | src/lib/osrs.ts:23 | replacing each whitespace run by one `+` never makes the text longer (the run itself is pinned by `CollapseRun`) |
| Osrs.CollapseRun | src/lib/osrs.ts:23 | for every whitespace-free prefix, nonempty whitespace run and rest not starting with whitespace, the run becomes exactly one `+` and the prefix is kept |
| Osrs.SanitizeTwoWords | src/lib/osrs.ts:22-24 | two whitespace-free words separated by any whitespace run are sent as `first+second` (so "Lord Foo" requests "Lord+Foo") |
| Osrs.CollapseNoWhitespace | src/lib/osrs.ts:23 | replacing each whitespace run by `+` leaves no whitespace, and a nonempty text stays nonempty |
| Osrs.CollapseKeepsPlain | src/lib/osrs.ts:23 | a text without whitespace is left unchanged by the replacement |
| Osrs.HiscoreUrl | src/lib/osrs.ts:41-43 | the URL is the fixed hiscore endpoint followed by a whitespace-free suffix carrying the player's visible characters |
| Osrs.ParseLine | src/lib/osrs.ts:33 | the rank field is always present; the level field is present exactly when the line has a comma; a comma-free line is its own rank with level and xp undefined |
| Osrs.PayloadLines | src/lib/osrs.ts:27 | the trimmed payload always splits into at least one line |
| Osrs.ParseIndexLite | src/lib/osrs.ts:26-38 | `order` is the 25-skill catalogue, and `skills` is the line-by-line index of the payload's lines |
| Osrs.IndexLines | src/lib/osrs.ts:28-35 | the `forEach` loop stores line i's value under `SKILLS[i]` for every i below min(line count, 25) |
| Osrs.IndexOfLinesIsIndex | src/lib/osrs.ts:27-35 | the keys are exactly the first min(line count, 25) skills; `SKILLS[i]` holds line i's fields 1, 2 and 3 as rank, level and xp; later lines are never read |
| Osrs.KeyedBySkillKeys | src/lib/osrs.ts:28-34 | the keys are exactly the first n skills, so a short payload yields fewer entries instead of an error |
| Osrs.ParseIndexLiteIndex | src/lib/osrs.ts:26-38 | the parser's record satisfies the index property for the payload's lines |
| Osrs.FetchOsrsStats | src/lib/osrs.ts:40-55 | a failed reply gives `Upstream error <status>`; otherwise `player` is the name as given, `order` is the catalogue, and `skills` indexes the body |
| Osrs.ParseJoinedLine | src/lib/osrs.ts:33 | a line of one or more comma-free fields parses to `Number` of its first three fields, each field past the end being `undefined` |
| Osrs.HiscoreLineRoundTrip | src/lib/osrs.ts:33 | a line `rank,level,xp[,more]` parses back to those three integers |
| Osrs.PayloadRoundTrip | src/lib/osrs.ts:26-35 | a payload of hiscore lines, padded with whitespace, yields one line per triple, each parsing back to its triple |
| Osrs.BlankPayload | src/lib/osrs.ts:27-34 | a blank payload is one empty line, which parses to rank 0 with level and xp undefined |
| Leaderboard.Primary | src/app/page.tsx:96-100 | the selected column decides by its own order: for level, xp and rank the result is negative exactly when a's value is smaller, for the player column it is the name comparison; it is 0 exactly when the rows agree on that column |
| Leaderboard.TieBreak | src/app/page.tsx:104-111 | the tie-break chain is 0 only for identical rows; the higher level comes first, then on equal level the higher xp, then on equal xp the lower rank, and on all three equal the name order decides |
| Leaderboard.Compare | src/app/page.tsx:95-112 | the comparator is 0 only for identical rows; when the selected column differs, a comes first exactly when `Primary` puts it first in ascending direction, or last in descending (so, with `Primary`'s contract, ascending puts the smaller value first) |
| Leaderboard.SelectedKeyDecides | src/app/page.tsx:96-102 | when the chosen key differs, the ascending comparison is `Primary` (whose sign is the key's own order), the descending one its negation, and swapping the rows flips the sign |
| Leaderboard.TieChainIgnoresDirection | src/app/page.tsx:104-111 | when the chosen key ties, both directions give the fixed tie-break chain |
| Leaderboard.CompareAntisymmetric | src/app/page.tsx:95-112 | swapping the rows negates the comparison, which is 0 only for identical rows |
| Leaderboard.CompareTransitive | src/app/page.tsx:95-112 | the comparator is transitive for every key and direction |
| Leaderboard.RowOrderTotal | src/app/page.tsx:95-112 | the comparator is a total order on rows |
| Leaderboard.BaseRows | src/app/page.tsx:90-93 | rows exist exactly when every player has the selected skill, one row per player with that skill's level, xp and rank |
| Leaderboard.BuildRows | src/app/page.tsx:88-115 | copying the rows into an array, sorting it in place and numbering it gives the rows' specification |
| Leaderboard.Ranked | src/app/page.tsx:114 | row i of the result carries groupRank i + 1 and the i-th sorted row, so the ranks run 1..n in display order |
| Leaderboard.RowsAreRankedPermutation | src/app/page.tsx:88-115 | the rows are a permutation of the players' rows, ordered by the comparator, with `groupRank` 1..n in display order |
| Leaderboard.NoRowsWhenBlank | src/app/page.tsx:89 | no players or a blank selected skill gives no rows |
| Leaderboard.RowsIndependentOfInputOrder | src/app/page.tsx:88-115 | the rows do not depend on the order the players were loaded in |
| Leaderboard.ClickTwice | src/app/page.tsx:79-86 | two clicks on the current column restore the sort state |
| Leaderboard.Click | src/app/page.tsx:79-86 | a click selects its column and always changes the state; on the current column it flips the direction, on another it sets ascending |
| Leaderboard.AriaSort | src/app/page.tsx:117-120 | the label is `none` exactly off the sort column, otherwise `ascending`/`descending` as the direction |
| Leaderboard.AriaSortAfterClick | src/app/page.tsx:79-120 | after a click only the clicked column carries a sort label |
| Leaderboard.FetchPlayer | src/app/page.tsx:40-46 | a blank name settles as `null` without a request; otherwise the trimmed name is requested, a failed reply is exactly the rejected case, and a good reply settles as fulfilled with exactly its payload |
| Leaderboard.SettleAll | src/app/page.tsx:52 | one settled outcome per default name, in order, each being that name's fetch |
| Leaderboard.Partition | src/app/page.tsx:53-59 | the loop collects exactly the loaded payloads and the failed names, each in order |
| Leaderboard.PartitionCounts | src/app/page.tsx:56-59 | every settled result lands on exactly one side |
| Leaderboard.UnloadedNameFails | src/app/page.tsx:56-58 | a rejected or empty result puts its name in the failures |
| Leaderboard.OkValuesLoaded | src/app/page.tsx:57 | every loaded player comes from a fulfilled, nonempty result |
| Leaderboard.BlankNameFails | src/app/page.tsx:40-42 | a blank name is never fetched and is reported as failed |
| Leaderboard.Home.constructor | src/app/page.tsx:32-38 | the initial state: not loading, no players, `Overall`, sorted by level descending, no errors |
| Leaderboard.Home.HeaderClick | src/app/page.tsx:79-86 | the sort state becomes the click transition of the old state, and nothing else changes |
| Leaderboard.Home.Load | src/app/page.tsx:48-73 | the players, skill order, selected skill, errors and loading flag after a load, given the settled results |
| Leaderboard.FailureMessages | src/app/page.tsx:66 | one message per failed name, in order, each the fixed `Failed to load ` prefix followed by exactly that name |
| Leaderboard.Home.Rows | src/app/page.tsx:88-115 | the memoised rows of the current state |
| GroupRoute.ParseUsernames | src/app/api/timeseries/group/route.ts:22-25 | every parsed username is nonempty, trimmed and comma-free |
| GroupRoute.ParsedUsernames | src/app/api/timeseries/group/route.ts:22-25 | a name is parsed exactly when it is the nonempty trim of some comma piece |
| GroupRoute.TrimAll | src/app/api/timeseries/group/route.ts:24 | one piece per input piece, each the trim of its piece and so with no whitespace at either end |
| GroupRoute.KeepNonEmpty | src/app/api/timeseries/group/route.ts:25 | no empty string survives, nothing is added, and a list without empty strings passes unchanged (`KeepNonEmptyMember`: membership is exactly the nonempty input strings) |
| GroupRoute.KeepNonEmptyAppend | src/app/api/timeseries/group/route.ts:25 | the filter distributes over concatenation, so kept pieces stay in their original order with their multiplicity |
| GroupRoute.KeepNonEmptyMember | src/app/api/timeseries/group/route.ts:25 | a string is kept exactly when it is in the input and nonempty |
| GroupRoute.UsernamesRoundTrip | src/app/api/timeseries/group/route.ts:22-25 | parsing a comma-joined list of clean names gives back that list, in order |
| GroupRoute.UsernamesStable | src/app/api/timeseries/group/route.ts:22-25 | re-joining and re-parsing a parsed list changes nothing |
| GroupRoute.FindPlayers | src/app/api/timeseries/group/route.ts:32-35 | the player query never returns more rows than the table holds |
| GroupRoute.FoundPlayers | src/app/api/timeseries/group/route.ts:32-35 | the player query returns exactly the table rows whose username was requested |
| GroupRoute.IdMap | src/app/api/timeseries/group/route.ts:41 | the username-to-id map has no more entries than there are player rows |
| GroupRoute.IdMapKeys | src/app/api/timeseries/group/route.ts:41 | the id map has a key exactly for each username among the players |
| GroupRoute.IdMapLastWins | src/app/api/timeseries/group/route.ts:41 | for a repeated username the last row's id wins |
| GroupRoute.IdMapFromRow | src/app/api/timeseries/group/route.ts:41 | every id in the map comes from a row with that username |
| GroupRoute.FindSnapshots | src/app/api/timeseries/group/route.ts:44-49 | the snapshot query never returns more rows than the table holds |
| GroupRoute.SnapsOfFind | src/app/api/timeseries/group/route.ts:44-49 | a found player's snapshots from the query are all of its snapshots in the table |
| GroupRoute.GroupByPlayer | src/app/api/timeseries/group/route.ts:52-58 | the map's keys are the snapshots' player ids, and each group is that player's snapshots in input order |
| GroupRoute.SnapsOfCounts | src/app/api/timeseries/group/route.ts:52-58 | each snapshot lands in exactly the group of its own player id, as many times as it occurs |
| GroupRoute.SnapsOfAscending | src/app/api/timeseries/group/route.ts:44-58 | a group of snapshots ordered by `recordedAt` stays ordered |
| GroupRoute.ToPoint | src/app/api/timeseries/group/route.ts:78-88 | the point keeps the snapshot's time; absent skill data gives exp 0, level 1, rank null; in a present entry a missing xp gives exp 0 and a missing level gives level 1, the rank passes through, and present values, `-1` included, pass through |
| GroupRoute.SkillOf | src/app/api/timeseries/group/route.ts:80 | a snapshot yields skill data exactly when it has a skills record with that skill, and then that record's entry |
| GroupRoute.StoredSkillReadsBack | src/app/api/timeseries/group/route.ts:78-88 | a snapshot storing a full triple for the skill yields exactly that triple |
| GroupRoute.Points | src/app/api/timeseries/group/route.ts:78 | one point per snapshot |
| GroupRoute.BuildSeries | src/app/api/timeseries/group/route.ts:73-91 | keys are the requested usernames with a nonzero id, each mapped to the points of that id's group |
| GroupRoute.Get | src/app/api/timeseries/group/route.ts:10-94 | the handler's response is the route's specification |
| GroupRoute.RouteSpec | src/app/api/timeseries/group/route.ts:10-94 | the response is 400 with the fixed message exactly when a parameter is missing or empty; otherwise it is 200 with a series |
| GroupRoute.EmptySeries | src/app/api/timeseries/group/route.ts:27-39 | when no requested username matches a player, the series is empty |
| GroupRoute.SeriesKeys | src/app/api/timeseries/group/route.ts:73-76 | a username is a series key exactly when it was requested and has a nonzero id |
| GroupRoute.SeriesKeysPositiveIds | src/app/api/timeseries/group/route.ts:22-91 | with positive ids, the keys are exactly the requested usernames found in the player table |
| GroupRoute.FoundIdPositive | src/app/api/timeseries/group/route.ts:32-41 | with positive ids, a requested username has an id in the map exactly when some player row carries it |
| GroupRoute.SeriesPoints | src/app/api/timeseries/group/route.ts:74-90 | a key's points are the points of all table snapshots of that user's player, in order |
| ExpChart.WindowLabel | src/components/ExpOver30DaysChart.tsx:87-94 | 365 or more gives `Last 365 days`; any other width w gives `Last w days` |
| ExpChart.TickThinning | src/components/ExpOver30DaysChart.tsx:229-234 | over 30 labels only multiples of 21 keep a label, from 16 to 30 only multiples of 3, otherwise all |
| ExpChart.TickLabel | src/components/ExpOver30DaysChart.tsx:229-234 | every tick inside the labels gets a string; a nonempty tick text is its label from the sixth character on |
| ExpChart.BuildDays | src/components/ExpOver30DaysChart.tsx:97-106 | exactly `windowDays` consecutive days, ascending and ending today |
| ExpChart.AfterCutoff | src/components/ExpOver30DaysChart.tsx:116 | the cutoff filter never adds points |
| ExpChart.AfterCutoffMember | src/components/ExpOver30DaysChart.tsx:111-116 | a point survives the filter exactly when it is at or after the cutoff |
| ExpChart.AfterCutoffAppend | src/components/ExpOver30DaysChart.tsx:114-116 | the filter works piece by piece |
| ExpChart.SortRecent | src/components/ExpOver30DaysChart.tsx:114-117 | the filtered points sorted in place are the filtered points' sort |
| ExpChart.ByTime | src/components/ExpOver30DaysChart.tsx:117 | the comparator is negative exactly when the first point is earlier and 0 exactly for equal timestamps |
| ExpChart.RecentIsSortedWindow | src/components/ExpOver30DaysChart.tsx:114-117 | the result is in time order, a permutation of the filtered points, and holds exactly the points at or after the cutoff |
| ExpChart.Resample | src/components/ExpOver30DaysChart.tsx:119-135 | the cursor loop emits, for ascending days, the resampled series of the specification |
| ExpChart.Consumed | src/components/ExpOver30DaysChart.tsx:126-132 | the cursor stops after exactly the points at or before the time and stays within the list |
| ExpChart.ConsumedMonotone | src/components/ExpOver30DaysChart.tsx:126-132 | a later time never moves the cursor back |
| ExpChart.ValueIsLatestAtOrBefore | src/components/ExpOver30DaysChart.tsx:124-134 | a day's value is null exactly when no point is at or before its end; otherwise it is the metric of the last such point |
| ExpChart.ForwardFill | src/components/ExpOver30DaysChart.tsx:120-134 | once a day has a value, every later day does |
| ExpChart.NoPointsAllNull | src/components/ExpOver30DaysChart.tsx:109-134 | no points gives all nulls |
| ExpChart.OldPointIgnored | src/components/ExpOver30DaysChart.tsx:111-116 | a point before the cutoff never changes a dataset |
| ExpChart.OnlyOldPointsAllNull | src/components/ExpOver30DaysChart.tsx:108-135 | with every point before the cutoff, the dataset is all null |
| ExpChart.PlayerDataset | src/components/ExpOver30DaysChart.tsx:109-135 | one player's values are the resampled window of their points |
| ExpChart.Datasets | src/components/ExpOver30DaysChart.tsx:108-149 | one dataset per player, in order, each being that player's specification |
| ExpChart.PointsOf | src/components/ExpOver30DaysChart.tsx:109 | a player without a series has no points; otherwise the points are that player's series |
| ExpChart.HasData | src/components/ExpOver30DaysChart.tsx:154-156 | the chart has data exactly when some dataset holds some non-null value |
| ExpChart.NoHistoryWithoutRecentPoints | src/components/ExpOver30DaysChart.tsx:108-156 | when every snapshot is older than the cutoff, the chart shows its "no history" message |

## Left out

- Network and database I/O. Out of reach of a proof, so each becomes an input:
  - the upstream hiscore request in `fetchOsrsStats` is the function
    parameter `fetch`;
  - the player fetch in `load` is `api`;
  - the two Prisma queries filter the given player and snapshot tables;
  - the snapshot table is taken in the `recordedAt` ascending order the
    query asks for.
- `NextResponse` and JSON serialisation. A response is a status plus a body
  value.
- URL encoding of the player name in `fetchPlayer`. Encoding is not part of
  the modelled logic.
- JavaScript `Date` arithmetic, because it mixes local time (`setDate`) with
  UTC (`toISOString`):
  - days are integers and `today` is a parameter;
  - the cutoff (now minus `windowDays` days) is an integer parameter;
  - the `YYYY-MM-DD` label text is not built; the tick rule takes the labels
    as given strings;
  - snapshot timestamps stay integers, so the ISO string is not formed.
- `Number(...)` coercion beyond integer literals. Fractions, exponents, hex
  and `Infinity` are folded into NaN, since hiscore fields are integers.
- JSON `null` and `undefined`. Both are `Option.None`. An untyped `data.skills`
  that is not an object is treated as having no skills.
- `localeCompare`. It is plain lexicographic order on characters, since
  locale collation tables are outside the model.
- `toLocaleString`, the y-axis tick formatting (floating-point division by
  1 000 and 1 000 000), the tooltip text, the colour palette, Chart.js
  options and all JSX rendering. These are presentation, not logic.
- The chart's fetch effect (the `useEffect` that requests the group route)
  and its `loading` flag. The series map is given as a parameter.
- Async orchestration of `load`:
  - `Promise.allSettled` is the function `SettleAll` over the injected
    fetch;
  - `Leaderboard.Home.Load` takes the settled results as a parameter;
  - the `catch` branch for an exception outside the per-player fetches is
    not modelled, because it cannot be reached from the modelled code.
- Leaderboard.BaseRows: a row's level, xp and rank are integers. The page
  can receive records whose fields are NaN or undefined (a non-numeric or
  short hiscore line). After the JSON hop these arrive as `null` or as a
  missing key. `a.level - b.level` then treats `null` as 0 and yields NaN for
  a missing key, and `sort` reads a NaN result as a tie. Rows with such
  fields are outside the model, and for them the source's order is engine
  dependent and unspecified.
- Leaderboard.Compare: stated and proved only for integer fields, for the
  reason given on the `Leaderboard.BaseRows` line.
- `Leaderboard.Home.Rows`: a player record without the selected skill makes
  `s.level` throw in the source. The model returns a `Failure` for it
  instead of an exception.
- `Osrs.HiscoreUrl`: states only what the suffix looks like (no whitespace,
  the same visible characters), not the full string equation.
- `ExpChart.WindowLabel`: the four fixed strings for 7, 30, 90 and 180 are
  the same text the general `Last N days` branch produces, so they are not
  separate cases.
- `GroupRoute.BuildSeries` and `GroupRoute.SeriesKeys`: `if (!playerId)`
  also skips a player whose id is 0. The model keeps this as written;
  `SeriesKeysPositiveIds` states the intended reading under positive ids.
- The single-player time-series route, the snapshot routes, the revalidate
  route and the 24-skill catalogue copy in the per-player API route. None of
  them is part of this model.
