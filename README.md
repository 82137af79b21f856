# ELI7E FC game finder — a Dafny model

The game finder has two halves. A Node script (`getData.js`) reads the club's
schedule sheet as CSV rows. It resolves each venue name to a street address
through a fixed table and geocodes each address through a memo dictionary
(`geocache.json`) in front of a geocoding service. It writes one game record
per row that ends up with coordinates. A React viewer (`App.jsx`, `MapView.jsx`,
`GameList.jsx`) loads those records and shows the games of one date:

- a map with a numbered marker per venue, fanned out around addresses shared by
  several venues, with permanent tooltips listing the club's own games;
- a side list grouped by venue and by coach under collapsible headings;
- date, venue and coach filters, and a default date chosen on load.

This project models that core in Dafny and proves what each step promises.

| file | what it holds |
|---|---|
| `wrappers.dfy` | `Option` |
| `jsstring.dfy` | the string built-ins used: `trim`, `includes`, `indexOf`, `replace` of a literal, `split` on one character, default `sort` order |
| `jsnumber.dfy` | numbers as NaN or a real, `parseInt`, `String(n)`, `padStart(2, '0')` |
| `seqs.dfy` | `filter`, `map`, `new Set` de-duplication, the grouping `reduce`, a stable sort |
| `records.dfy` | the CSV row, the coordinate pair, the game record |
| `getdata.dfy` | `convertTo24Hour`, `cleanEli7eTeamName`, `geocode` (a pure `Lookup` and the `GeocodeCache` class that updates the dictionary in place), the `processData` loop |
| `ordering.dfy` | sorting strings and strictly ascending lists |
| `mapview.dfy` | buckets by address, venues per bucket, marker count, position, highlight, tooltip |
| `gamelist.dfy` | grouping, sorted headings, time order, the `ListState` class (accordions and filter effects) |
| `app.dfy` | `formatDate`, the derived lists, the `Viewer` class (filters and default date) |

The model follows what the code does, which differs from the intended design in these places:

- There is no table of manual coordinate overrides. Every address goes
  through the dictionary and the service.
- A `null` dictionary entry (a remembered failure) is not a hit: `geocode` asks
  the service again (`getData.js:124` tests truthiness). A failed retry
  stores `null` again.
- When the club plays, the home or away team name is overwritten with the
  cleaned club team name. `eli7eTeamName` holds the same cleaned name.
- Venues whose name contains "Sweetwater" are not merged with other venues.
  They keep their own marker; only their tooltip is suppressed.
- A time with a space that is not `h:mm AM/PM` does not give "": the hour
  reads as NaN and missing minutes print as `undefined` (so "TBD later" gives
  "NaN:undefined" and "5 PM" gives "17:undefined"). Only a missing time or one
  without a space gives "" (`getData.js:94-105`).
- A game is the club's only when the ELI7E cell is non-blank and the home or
  away team contains "ELI7E" (`getData.js:170-173`), not whenever the cell is
  non-blank.
- The optional gender, age-year and flight columns are not copied into the
  record (`getData.js:176-184`); `Game` has no such fields.

## Model

| member | source | states |
|---|---|---|
| `GetData.ConvertTo24Hour` | getData.js:93-106 | the result is empty exactly when the time is missing or has no space |
| `GetData.ConvertParts` | getData.js:95-105 | once a space is present the result is never empty, even for an unparsable hour; `Hour24` is the AM/PM correction and `HourText` prints the hour (NaN for an unparsable one) |
| `GetData.SplitClockTime` | getData.js:95 | for a clock part and a modifier without spaces, the conversion reads exactly those two parts |
| `GetData.ParseIntOfDigits` | getData.js:97 | an all-digit hour parses to its decimal value |
| `GetData.ConvertDigitHour` | getData.js:96-105 | for `h:mm M` with a digit hour: the hour's value corrected by `Hour24`, printed and padded, then ':' and the minutes verbatim |
| `GetData.Hour24Corrected` | getData.js:99-104 | PM below 12 adds 12, 12 AM becomes 0, any other hour stays |
| `GetData.Clock12OfHour24` | getData.js:99-104 | for hours 1..12 and AM/PM the corrected hour is in 0..23, and reading it back on a 12-hour clock gives the input |
| `GetData.ConvertClockTime` | getData.js:93-106 | a well-formed `h:mm AM/PM` converts to two digits below 24, ':' and the minutes, and the 12-hour reading of those digits is the input hour and modifier (nothing is lost) |
| `GetData.PaddedHour` | getData.js:105 | an hour below 24, padded, then ':' and the minutes: two digits with that value at the front, the minutes after index 3 |
| `GetData.ReplaceDashes` | getData.js:111 | after the dash rewrite no dash is left |
| `GetData.ReplaceDashesKeepsSkeleton` | getData.js:111 | the rewrite changes only spaces and dashes; all other characters survive in order |
| `GetData.ReplaceDashesNoDash` | getData.js:111 | a name without dashes is unchanged |
| `GetData.ReplaceDashesPrefix` | getData.js:111 | dash-free text that does not end in a space passes through the rewrite unchanged in front of the rest |
| `GetData.CleanEli7eTeamName` | getData.js:109-112 | a missing or empty name gives ""; any result has no dash and no white space at either end |
| `GetData.CleanClubPrefix` | getData.js:109-112 | "ELI7E FC - " followed by a trimmed, dash-free team cleans to exactly that team |
| `GetData.CleanHeadAndTeam` | getData.js:111 | rewrite, removal of the first occurrence of a head and trim turn "head - team" into "team" |
| `GetData.HeadRemoved` | getData.js:111 | removing the head from the rewritten "head - team" leaves " team" |
| `GetData.SpacedDash` | getData.js:111 | a spaced dash between dash-free parts becomes one space |
| `GetData.RemoveFirstAtStart` | getData.js:111 | `replace` of a pattern that starts the string removes that prefix |
| `GetData.TrimLeadingSpace` | getData.js:111 | trimming " team", where team has no white space at its ends, gives team |
| `GetData.CleanPlainName` | getData.js:109-112 | a name with no dash and no "ELI7E FC" is only trimmed |
| `GetData.Lookup` | getData.js:122-149 | empty or "Not applicable" gives null and changes nothing; a non-null entry is returned untouched; otherwise one request is logged and the entry for the address is set to the result; the result is non-null exactly when the service gives two non-NaN numbers, and is then exactly that `{lat, lon}` pair |
| `GetData.GeocodeMonotone` | getData.js:122-149 | a lookup keeps every key, every stored coordinate, and only appends to the request log |
| `GetData.GeocodeCache.constructor` | getData.js:115-119 | the dictionary starts as loaded, with no request sent |
| `GetData.GeocodeCache.Geocode` | getData.js:122-149 | the in-place `geocode` returns and leaves exactly what `Lookup` describes |
| `GetData.Resolve` | getData.js:160-163 | an address exists exactly when the table has a non-empty entry for the venue |
| `GetData.MakeRecord` | getData.js:166-185 | cells copied; `time24` converted; coords set; an ELI7E game exactly when the ELI7E cell is non-blank and a team contains "ELI7E"; only then the cleaned name is set and replaces each team containing "ELI7E" |
| `GetData.EnrichRow` | getData.js:159-188 | a row yields a record exactly when its venue resolves and the address geocodes; an unresolved venue leaves the dictionary alone |
| `GetData.EnrichRowKeepsKey` | getData.js:176-185 | a record copies its row's match number, date, time, venue, division and coach |
| `GetData.EnrichKeepsRowOrder` | getData.js:159-188 | the records come out in row order, each carrying its row's cells |
| `GetData.EnrichWarm` | getData.js:122-188 | when every geocodable address is a hit, a run sends nothing, leaves the dictionary unchanged and emits one record per geocodable row |
| `GetData.EnrichRemembers` | getData.js:134-148 | after a run every geocodable address has an entry, coordinates or null; held coordinates are kept and the log only grows |
| `GetData.Enrich` | getData.js:159-188 | the loop as a fold over the rows: at most one record per row, and the request log only grows, by at most one request per row |
| `GetData.ProcessData` | getData.js:151-193 | the loop yields the records and dictionary of the row-by-row fold `Enrich` |
| `JsString.Trim` | getData.js:111 | the result is the middle slice of the input with only white space cut off, neither starting nor ending with white space |
| `JsString.TrimEmptyIffBlank` | getData.js:170 | a cell trims to "" exactly when it is all white space |
| `JsString.IndexOf` | getData.js:111 | the first position where the pattern occurs, none when it occurs nowhere |
| `JsString.IncludesIffOccurs` | getData.js:94 | `includes` holds exactly when some slice equals the pattern |
| `JsString.RemoveFirst` | getData.js:111 | only the first occurrence is cut out, and the string is unchanged when there is none |
| `JsString.Split` | getData.js:95-96 | at least one piece, none holding the separator |
| `JsString.JoinSplit` | getData.js:95-96 | joining the pieces back gives the original string |
| `JsString.SplitAtFirst` | getData.js:95 | the first piece is everything before the first separator |
| `JsString.SplitNoSeparator` | getData.js:96 | without a separator there is one piece, the whole string |
| `JsString.SplitHasSecond` | getData.js:94-95 | a string with the separator has a second piece |
| `Ordering.StrLeTotalPreorder` | src/components/GameList.jsx:62-63 | the default string order is total and transitive |
| `JsString.StrLeAntisymmetric` | src/components/GameList.jsx:62-63 | two strings each not after the other are equal |
| `JsNumber.ParseIntReads` | getData.js:97 | `ParseInt`, that is `parseInt(s, 10)`, skips leading white space and one sign; it is NaN exactly when no digit follows, otherwise the value of the longest digit run there, negated after '-' |
| `JsNumber.ParseIntOfIntToString` | src/App.jsx:10 | the year `String` prints reads back as the year: `parseInt(String(n))` is `n` for every integer |
| `JsNumber.NatToString` | getData.js:105 | `String(n)` of a natural: at least one digit, no leading zero, one digit exactly below ten |
| `JsNumber.IntToString` | src/App.jsx:10 | `String(n)` of an integer: digits, after a minus sign when negative |
| `JsNumber.PadStart2` | src/App.jsx:7-8 | a string of two or more characters is unchanged; a shorter one is left-filled with '0' to length two |
| `JsNumber.DigitsValueOfNatToString` | getData.js:105 | the printed digits of `n` read back as `n` |
| `JsNumber.NatToStringOfDigitsValue` | getData.js:105 | a digit string without leading zeros is the printed form of its value |
| `JsNumber.PadStart2TwoDigits` | src/App.jsx:7-8 | a number below 100 pads to two digits with that value |
| `Seqs.FilterCounts` | src/App.jsx:59 | `filter` keeps each satisfying element as often as it occurs, nothing else |
| `Seqs.Filter` | src/App.jsx:59 | `filter` keeps at most the input's elements, all satisfying the predicate |
| `Seqs.FilterMembers` | src/App.jsx:59 | an element is kept exactly when it is in the input and satisfies the predicate |
| `Seqs.WithKeyCounts` | src/App.jsx:59 | selecting by key keeps each element with that key exactly as often as it occurs, and nothing else |
| `Seqs.FilterSubsequence` | src/App.jsx:59 | `filter` keeps the original order |
| `Seqs.Map` | src/App.jsx:41 | `map` keeps the length and applies the function at each index |
| `Seqs.Dedup` | src/components/MapView.jsx:39 | every element once and only elements of the input |
| `Seqs.DedupOrder` | src/components/MapView.jsx:39 | the distinct elements come in first-occurrence order |
| `Seqs.AddToGroup` | src/components/MapView.jsx:24-26 | one reduce step appends to the group with the key, or opens a new group at the end |
| `Seqs.GroupBy` | src/components/MapView.jsx:23-28 | the reduce gives groups with distinct keys |
| `Seqs.GroupByCorrect` | src/components/MapView.jsx:23-28 | the group keys are the distinct keys in first-occurrence order, each group exactly the elements with its key in order |
| `Seqs.GroupByPartition` | src/components/GameList.jsx:59-60 | every element is in exactly the group for its key |
| `Seqs.SumOfCountsIsLength` | src/components/MapView.jsx:43-46 | when every element's key is among distinct keys, the per-key counts add up to the length |
| `Seqs.SortBy` | src/components/GameList.jsx:89 | the sort is a permutation of its input |
| `Seqs.SortBySorted` | src/components/GameList.jsx:89 | sorting by a total preorder gives a sorted permutation |
| `Seqs.SortByStable` | src/components/GameList.jsx:89 | elements that compare equal keep their relative order |
| `Seqs.PermutationKeepsDistinct` | src/App.jsx:41 | sorting a list without repetitions keeps it without repetitions |
| `Ordering.SortStringsDistinct` | src/App.jsx:62-63 | sorting distinct strings gives a strictly ascending list of the same strings |
| `Ordering.SortedDistinct` | src/App.jsx:62-63 | `Array.from(new Set(v)).sort()` is strictly ascending and holds exactly the values of `v` |
| `Ordering.StrictlyAscendingUnique` | src/components/GameList.jsx:62-63 | a strictly ascending list is determined by its set of values |
| `MapView.GamesByAddress` | src/components/MapView.jsx:23-28 | one bucket per distinct address, in first-occurrence order, each exactly the games at that address in order |
| `MapView.GamesByAddressPartition` | src/components/MapView.jsx:23-28 | every game lies in exactly the bucket of its address |
| `MapView.UniqueLocations` | src/components/MapView.jsx:39 | the venue names of a bucket, each once |
| `MapView.UniqueLocationsOrder` | src/components/MapView.jsx:39 | venue names come in the order of their first game |
| `MapView.LocationGames` | src/components/MapView.jsx:43 | the bucket's games at that venue, in order, each as often as it occurs in the bucket, and no other |
| `MapView.LocationGamesNonEmpty` | src/components/MapView.jsx:43-44 | a listed venue has at least one game, so the empty guard never fires |
| `MapView.AnglesDistinct` | src/components/MapView.jsx:55-56 | `Angle(total, i)`, that is `360 / total * i`, gives the venues at one address distinct angles in [0, 360) |
| `MapView.AnglesEvenlySpaced` | src/components/MapView.jsx:55-56 | the first venue sits at 0 degrees and neighbours, including the last and the first, are `360 / total` degrees apart |
| `MapView.VenueMarker` | src/components/MapView.jsx:42-93 | no marker exactly when the first game lacks valid coordinates (`HasCoords`: present and neither NaN); otherwise count = games at the venue, highlighted iff the filter names it, on the point when alone else at its angle, and a tooltip iff summaries are on, the name has no "Sweetwater" and some ELI7E game is there, listing exactly those games |
| `MapView.AddressMarkers` | src/components/MapView.jsx:42-94 | one marker slot per venue, in venue order |
| `MapView.Layout` | src/components/MapView.jsx:38-95 | the markers of each address, in address order |
| `MapView.VenueCountsSumToBucket` | src/components/MapView.jsx:43-46 | the venue counts of an address add up to its number of games |
| `MapView.TooltipListsVenueEli7eGames` | src/components/MapView.jsx:70-91 | a tooltip lists exactly the ELI7E games at its venue and address, in order |
| `MapView.SweetwaterHasNoTooltip` | src/components/MapView.jsx:70-85 | a Sweetwater venue keeps its own marker, but that marker has no tooltip |
| `GameList.GroupGames` | src/components/GameList.jsx:59-60 | one group per distinct venue or coach, each exactly the games with that key in order |
| `GameList.GroupGamesPartition` | src/components/GameList.jsx:59-60 | each game is in exactly the group of its key |
| `GameList.SortedKeys` | src/components/GameList.jsx:62-63 | the headings are strictly ascending and are exactly the group names |
| `GameList.SortedKeysAreDistinctKeys` | src/components/GameList.jsx:62-63 | the sorted headings equal the sorted distinct keys of the games, the same list `Array.from(new Set(...)).sort()` gives |
| `GameList.GroupOf` | src/components/GameList.jsx:89 | the group looked up under a name is the one stored with it |
| `GameList.SortByTime` | src/components/GameList.jsx:89 | a group's games are permuted into `time24` order |
| `GameList.SortByTimeStable` | src/components/GameList.jsx:89 | games with the same start time keep their order |
| `GameList.ViewGroup` | src/components/GameList.jsx:86-100 | heading name, count, "Game"/"Games", highlighted iff the filter names it, cards only when expanded, in time order, each highlighted iff it is the selected match |
| `GameList.ViewSection` | src/components/GameList.jsx:86-120 | nothing while the heading is closed, otherwise one group view per sorted name |
| `GameList.SectionGroupIsItsGames` | src/components/GameList.jsx:86-100 | the cards under a heading are a permutation of exactly that group's games |
| `GameList.Toggled` | src/components/GameList.jsx:68-77 | only the toggled name changes membership |
| `GameList.ToggleTwice` | src/components/GameList.jsx:68-77 | toggling twice restores the set |
| `GameList.ListState.constructor` | src/components/GameList.jsx:21-24 | both headings closed, nothing expanded |
| `GameList.ListState.ToggleLocationGroup` | src/components/GameList.jsx:82 | flips the venue heading only |
| `GameList.ListState.ToggleCoachGroup` | src/components/GameList.jsx:102 | flips the coach heading only |
| `GameList.ListState.ToggleLocationAccordion` | src/components/GameList.jsx:68-72 | flips one venue in the venue set, nothing else |
| `GameList.ListState.ToggleCoachAccordion` | src/components/GameList.jsx:73-77 | flips one coach in the coach set, nothing else |
| `GameList.ListState.LocationFilterChanged` | src/components/GameList.jsx:29-42 | a venue filter opens the venue heading with exactly that venue expanded; 'all' changes nothing |
| `GameList.ListState.CoachFilterChanged` | src/components/GameList.jsx:44-57 | a coach filter opens the coach heading with exactly that coach expanded; 'all' changes nothing |
| `GameList.FilteredVenueIsExpanded` | src/components/GameList.jsx:29-42 | after a venue filter is picked, the filtered venue is the one group shown expanded and highlighted |
| `App.FormatDate` | src/App.jsx:6-11 | `MM/DD/YYYY`: two-digit month and day with their values, slashes at 2 and 5, and the year that parses back |
| `App.SlashedFields` | src/App.jsx:10 | where the month, day and year fields sit in `MM/DD/...` |
| `App.FormatDateInjective` | src/App.jsx:6-11 | different days format differently |
| `App.DateOrder` | src/App.jsx:41 | the date comparator is a total preorder on the parsed times |
| `App.AvailableDates` | src/App.jsx:41 | the distinct game dates, each once, in calendar order |
| `App.GamesOnDate` | src/App.jsx:57-60 | nothing without a date, else that date's games in order, each as often as it occurs in all games, and no other |
| `App.AvailableLocations` | src/App.jsx:62 | strictly ascending, holding exactly the venues of the day |
| `App.AvailableCoaches` | src/App.jsx:63 | strictly ascending, holding exactly the coaches of the day |
| `App.MapMembers` | src/App.jsx:62-63 | a value is in the mapped list exactly when some game maps to it |
| `App.GamesForMap` | src/App.jsx:65-68 | the day's games, or the chosen coach's games among them in order, each as often as it occurs, and no other |
| `App.MapVenuesAreOffered` | src/App.jsx:62-68 | every venue on the map is offered by the venue menu |
| `App.FindFrom` | src/App.jsx:50 | the first date not before now, or none when every date is earlier |
| `App.DefaultDate` | src/App.jsx:44-54 | the pick is a listed date: today's when listed, else the first date not before now (if non-empty), else the last |
| `App.DefaultDateFor` | src/App.jsx:44-54 | with dates and no date chosen the result is `DefaultDate` of today's formatted date, one of the dates; otherwise the chosen date stays |
| `App.PickDate` | src/App.jsx:45-53 | the effect's branches, after formatting today, compute `DefaultDate` |
| `App.Viewer.constructor` | src/App.jsx:27-32 | no date, both filters 'all', summaries on, no match selected |
| `App.Viewer.ResetFilters` | src/App.jsx:70-73 | both filters back to 'all', nothing else changes |
| `App.Viewer.ChangeDate` | src/App.jsx:100 | sets the date and resets both filters |
| `App.Viewer.DefaultDateEffect` | src/App.jsx:43-55 | with dates and no date chosen, the date becomes `DefaultDate` (a listed date); otherwise nothing changes |

## Left out

- Fetching the CSV, reading and writing `geocache.json` and `games.json`, logging,
  and the one-second `setTimeout` before each request. Rows arrive as a sequence,
  the loaded dictionary is a constructor argument, and the geocoding service is an
  oracle from (request number, address) to an optional pair of numbers.
- The contents of the venue-to-address table: it is an abstract `map`.
- Missing CSV cells (`undefined`) and the `TypeError` that `homeTeam.includes`
  would throw on one: every cell is a string. `convertTo24Hour` and
  `cleanEli7eTeamName` take an `Option` so that their `!x` guard is kept.
- Dictionary values other than `{lat, lon}` or `null`, and keys inherited from
  `Object.prototype`.
- `Object.keys` and `Object.values` put integer-like keys first; the model keeps plain
  insertion order. Addresses, venue names and coach names are not integer-like.
- Strings are sequences of code points. JavaScript compares UTF-16 code units,
  and `localeCompare` uses locale collation. Both are modelled by the same
  code-point lexicographic order.
- Floating point: numbers are NaN or an exact real. `parseFloat` is inside the
  service oracle. `parseInt` returns an unbounded integer, so precision loss
  beyond 2^53 is not modelled.
- `MapView.VenueMarker`: the marker offset (`0.001` times the cosine and sine of the
  angle) is left out; the position records the centre and the angle.
- Leaflet and React rendering, icons, click handlers that only call a setter,
  the map click that resets filters, and the scroll-into-view arithmetic of the list
  effects.
- `new Date(...)` is an abstract `DateParser` from string to time value, and the
  current time is a parameter. Invalid dates are not modelled.
- `formatDateForImage` (`src/App.jsx:13-24`, never called) and
  `scheduleCardImageName` (`src/App.jsx:75-88`) are not part of this model.
- `JsString.IsWhitespace` lists the WhiteSpace and LineTerminator code points of
  ECMAScript. Other Unicode space separators added in later Unicode versions are
  not tracked.
