# Sports-hall occupancy pages, modelled in Dafny

The system is a set of Streamlit pages about the sports halls of a city. Each page runs one or
more SQL queries, post-processes the rows with pandas and draws a map or a chart. This project
models the logic under that glue as pure functions over snapshots of the query results. Times are
whole seconds since midnight, SQL `NULL` is `Option`, and pandas floats are `Ratios.Float`, with
NaN, +inf and -inf next to the finite reals. The sums MySQL returns are Python `Decimal` values,
and dividing a `Decimal` by zero raises. A page that stops with an exception ends in an
`Errors.PyError`.

The model covers:

- **Shared encodings.** The weekday codec: seven full German names, their two-letter codes and
  the reverse `replace`. The `HH:MM:SS` text a time is sent as. The 15-minute slider grid.
- **Shared join.** The four-table join from booking through segment and address to geodata.
- **Booking-window predicates.** "Running at t" (`start <= t AND ende > t`) and "starts within
  [s, e]".
- **Freie Hallen.** The `NOT EXISTS` anti-join and the `IN (%s,...)` placeholder list.
- **Belegungs-Heatmap.** The heat points, one per joined row, with no `DISTINCT`.
- **Nutzergruppen-Karte.** The distinct rows with a non-null `bereich`, and the marker colours
  and text fallbacks.
- **Tätigkeit suchen.** The sorted, distinct activity list and the substring and window search.
- **Auslastungsanalyse.** The two `GROUP BY` sums, the weekday replace, the inner merge, the
  utilisation percentage, the weekday filter and the ranking by mean utilisation per name.
- **Auslastungs-Heatmap.** `clean_name`, the two left merges, minutes per 1000 inhabitants and the
  three-colour scale.
- **Nutzungsmuster.** The unit conversions, and the naming of k-means clusters by mean start hour.
- **Segmenttypisierung.** The display name and selection, the six nearest rows minus the
  selected segment, the address fallback and the area deviation.

One module per file. Wrappers, Seqs, Strings, Sorting, Ratios, Frames, Groups, Weekdays, Clock,
Records and Views are shared. FreeHalls, OccupancyHeatmap, UserGroupMap, ActivitySearch,
Utilisation, DistrictLoad, UsageClusters and SegmentTyping are one page each.

Where the code and its documentation disagree, the model follows the code:

- Unknown weekday values pass through the short-to-long `replace` unchanged
  (`Weekdays.ToFullName`). They are not rejected.
- The ranking is computed over the rows left after the weekday filter, because the page ranks
  the frame `lade_auslastung` returns.
- The two ratios divide `Decimal` values. A zero denominator raises `DivisionByZero`, or
  `InvalidOperation` when the numerator is zero too, and the page stops. It does not give a null,
  an infinity or NaN.
- A query with no rows gives a frame without columns. The next column lookup or merge on it
  raises `KeyError`, and so does the page.

## Model

| member | source | states |
|---|---|---|
| Weekdays.ToCode | pages/freie_hallen.py:17-21 | the day-name lookup gives the code of each of the seven names and fails on any other string |
| Weekdays.Code | pages/freie_hallen.py:17-20 | the code of a day has two letters and is the first two letters of its full name |
| Weekdays.CodesDistinct | pages/nutzergruppen_karte.py:40-44 | every code has two letters; different days have different codes and different names |
| Weekdays.ToCodeTotalInjective | pages/nutzergruppen_karte.py:37-44 | every selector entry has a code, and the seven entries get seven different codes |
| Weekdays.ToFullName | pages/Auslastungsanalyse.py:56-61 | the replace turns each code into its full name and leaves every other value unchanged |
| Weekdays.NameCodeRoundTrip | pages/Auslastungsanalyse.py:56-58 | name to code to name is the identity on the seven full names |
| Weekdays.CodeNameRoundTrip | pages/Auslastungsanalyse.py:56-58 | code to name to code is the identity on the seven codes |
| Weekdays.ToFullNameIdempotent | pages/Auslastungsanalyse.py:61 | applying the replace twice equals applying it once |
| Clock.Format | pages/belegungs_heatmap.py:33 | the time text has width 8, colons at positions 2 and 5, and digits everywhere else |
| Clock.FormatParse | pages/belegungs_heatmap.py:33 | reading the formatted text back gives the same second of the day |
| Clock.ParseFormat | pages/belegungs_heatmap.py:33 | every text that reads as a time is exactly the formatting of that time |
| Clock.HmsSplit | pages/belegungs_heatmap.py:33 | hours, minutes and seconds match a second count exactly when they are its quotient and remainders |
| Clock.Pad2Digits | pages/belegungs_heatmap.py:33 | a zero-padded two-digit field reads back as its number |
| Clock.Grid | pages/belegungs_heatmap.py:26-32 | the slider values start at the minimum, rise by one step each and end within one step of the maximum |
| Clock.SliderValue | pages/belegungs_heatmap.py:26-32 | the i-th slider value is 06:00 plus i quarter hours |
| Clock.SliderDomain | pages/belegungs_heatmap.py:26-32 | the slider offers 65 values, exactly the quarter hours from 06:00 to 22:00, and the 16:00 default is one of them |
| Records.OccupiedAt | pages/freie_hallen.py:42-44 | a booking runs at t on a day exactly when it is on that day and t lies in its half-open interval from start to end; a running booking has a start before its end |
| Records.StartsWithin | pages/taetigkeit_suche.py:73-74 | a booking found by the search window has a window whose start is not after its end; a start on either bound is found |
| Records.OccupiedBoundaries | pages/belegungs_heatmap.py:46-48 | a booking ending at t is not running at t; one starting at t on that day is |
| Records.SitesAt | pages/freie_hallen.py:66-67 | the geodata rows joined to one address are exactly those with its id |
| Records.Sites | pages/freie_hallen.py:65-68 | the geodata-address join holds exactly the pairs with matching ids |
| Records.PlaceOnSegment | pages/belegungs_heatmap.py:42-45 | a booking on a segment is placed at exactly the sites of the segment's facility |
| Records.PlaceOne | pages/belegungs_heatmap.py:42-45 | one booking's join rows are exactly its linked segment-and-site combinations |
| Records.PlaceAll | pages/belegungs_heatmap.py:42-45 | a join row exists exactly when booking, segment and site are present and their keys link up |
| Records.PlaceAllAppend | pages/belegungs_heatmap.py:42-45 | the join of two booking lists is the concatenation of their joins |
| FreeHalls.FacilityIds | pages/freie_hallen.py:35 | the distinct facility ids are duplicate-free and are exactly the facilities with a segment |
| FreeHalls.FreeFacilities | pages/freie_hallen.py:33-51 | a facility is free exactly when it has a segment and no booking of its segments runs at t on that day; no id repeats |
| FreeHalls.FreeShrinks | pages/freie_hallen.py:37-45 | more bookings only remove facilities, and a removed facility is busy through an added booking |
| FreeHalls.FreeBoundaries | pages/freie_hallen.py:43-44 | a booking ending at t leaves the free list as it was; one starting at t takes its facility out |
| FreeHalls.Placeholders | pages/freie_hallen.py:63 | no ids give the empty placeholder text; any id gives a text beginning with `%s` |
| FreeHalls.PlaceholderShape | pages/freie_hallen.py:63 | n placeholders take 3n-1 characters: `%s` at every third position, commas between |
| FreeHalls.PlaceholderCount | pages/freie_hallen.py:63 | splitting the placeholder list at its commas gives back n placeholders |
| FreeHalls.LoadGeo | pages/freie_hallen.py:53-74 | an empty id list sends no query and gives no rows; otherwise the rows are exactly the located addresses of the listed facilities |
| FreeHalls.LoadGeoParameters | pages/freie_hallen.py:63-70 | the query has as many placeholders as parameters |
| FreeHalls.Markers | pages/freie_hallen.py:78-84 | there is a marker for each located address and no other marker |
| FreeHalls.FreeHallsPage | pages/freie_hallen.py:89-95 | an empty free list gives the info message; otherwise the markers are exactly those of the free facilities' addresses |
| OccupancyHeatmap.OccupiedRows | pages/belegungs_heatmap.py:40-49 | a join row is returned exactly when its booking runs at t on the chosen day |
| OccupancyHeatmap.OccupiedMultiplicity | pages/belegungs_heatmap.py:40-49 | a running join row occurs in the result as often as in the join |
| OccupancyHeatmap.OccupiedAppend | pages/belegungs_heatmap.py:40-49 | the result for two booking lists is the concatenation of their results |
| OccupancyHeatmap.OccupiedAddBooking | pages/belegungs_heatmap.py:40-49 | one more booking adds one row per site of its facility when it is running, even if an equal booking exists, and none otherwise |
| OccupancyHeatmap.HeatData | pages/belegungs_heatmap.py:59 | there is one heat point per row, in row order, at that row's latitude and longitude |
| OccupancyHeatmap.HeatMultiplicity | pages/belegungs_heatmap.py:59 | a location gets as many heat points as there are rows at it |
| OccupancyHeatmap.HeatmapPage | pages/belegungs_heatmap.py:66-70 | no running booking gives the info message; otherwise the points of the running rows, one per row in row order, with each location's multiplicity kept |
| UserGroupMap.GroupRows | pages/nutzergruppen_karte.py:55-66 | rows are distinct and are exactly the projections of running joined bookings with a non-null `bereich` |
| UserGroupMap.ColourOf | pages/nutzergruppen_karte.py:13-27 | the colour is the table entry for a known `bereich`, and gray exactly when the label is outside the table or null |
| UserGroupMap.ColoursTable | pages/nutzergruppen_karte.py:13-27 | no label of the colour table is drawn in the gray fallback colour |
| UserGroupMap.OrDefault | pages/nutzergruppen_karte.py:81-82 | a null or empty text shows the default; any other text shows itself |
| UserGroupMap.MarkerOf | pages/nutzergruppen_karte.py:77-83 | a marker sits at its row's latitude and longitude and carries its `bereich`, the colour of that `bereich` and the two text fallbacks |
| UserGroupMap.ColourIgnoresGroup | pages/nutzergruppen_karte.py:83 | rows that differ only in user group or activity get the same colour |
| UserGroupMap.Markers | pages/nutzergruppen_karte.py:77-98 | there is one marker per row, in row order, each at its row's position with its row's `bereich`, colour and "Unbekannt"/"Keine Angabe" fallbacks |
| UserGroupMap.MarkedRows | pages/nutzergruppen_karte.py:77-83 | rows that all carry a `bereich` give markers that all carry one, each drawn in the colour of its `bereich` |
| UserGroupMap.GroupMapPage | pages/nutzergruppen_karte.py:115-120 | no row gives the info message; otherwise the markers of exactly the distinct rows, in order, each with a non-null `bereich` and its colour |
| ActivitySearch.SortedNoDup | pages/taetigkeit_suche.py:17 | a strictly ascending list has no repeated entry |
| ActivitySearch.InsertSorted | pages/taetigkeit_suche.py:17-20 | adding a value keeps the list strictly ascending and adds exactly that value |
| ActivitySearch.ActivityList | pages/taetigkeit_suche.py:16-22 | the list is strictly ascending and holds exactly the activities that are neither NULL nor empty |
| ActivitySearch.ActivityListDistinct | pages/taetigkeit_suche.py:17 | the activity list has no repeated entry |
| ActivitySearch.Hits | pages/taetigkeit_suche.py:64-81 | rows are distinct and are exactly the projections of joined bookings on the day whose activity contains the text and whose start lies in the window |
| ActivitySearch.HitsInWindow | pages/taetigkeit_suche.py:72-74 | every row found starts inside the closed window and carries the searched text |
| ActivitySearch.HitFound | pages/taetigkeit_suche.py:71-74 | every matching joined booking is found |
| ActivitySearch.EmptyWindow | pages/taetigkeit_suche.py:73-74 | a window starting after its end finds nothing |
| ActivitySearch.ExactActivityFound | pages/taetigkeit_suche.py:72-76 | a booking with exactly the chosen activity, on the day and inside the window, is found |
| ActivitySearch.WithEnds | pages/taetigkeit_suche.py:73-74 | the bookings with new end times differ from the old ones in `ende` only |
| ActivitySearch.SameButEndsHits | pages/taetigkeit_suche.py:71-74 | a row found in one booking list is found in any list that differs only in end times |
| ActivitySearch.MatchesIgnoresEnd | pages/taetigkeit_suche.py:71-74 | the search conditions give the same answer for bookings that differ only in end time |
| ActivitySearch.PlacedElsewhere | pages/taetigkeit_suche.py:67-70 | a booking on the same segment as a joined one joins to the same site |
| ActivitySearch.EndIgnored | pages/taetigkeit_suche.py:113 | changing end times leaves the set of rows found unchanged |
| ActivitySearch.NoActivityNoHits | pages/taetigkeit_suche.py:36 | with no activity listed, the text `None` the select box sends matches nothing |
| ActivitySearch.SearchPage | pages/taetigkeit_suche.py:104-109 | no row gives the info message, otherwise all rows are shown; a start after the end always gives the message |
| Utilisation.FacilitiesOf | pages/Auslastungsanalyse.py:28-29 | a segment id joins to exactly the facilities of segments with that id |
| Utilisation.FacilitiesMultiplicity | pages/Auslastungsanalyse.py:28-29 | a facility is joined once for each segment row with that id pointing to it, times the number of its own rows |
| Utilisation.Attach | pages/Auslastungsanalyse.py:28-29 | each row is paired with exactly the facilities of its segment |
| Utilisation.AttachAppend | pages/Auslastungsanalyse.py:28-29 | joining two blocks of rows gives the join of the first block followed by that of the second |
| Utilisation.AttachOne | pages/Auslastungsanalyse.py:28-29 | one row is paired with each facility its segment joins to, in the join's order |
| Utilisation.AttachMultiplicity | pages/Auslastungsanalyse.py:28-29 | a pair occurs as often as its row times as often as its facility is joined to the row's segment |
| Utilisation.BookedMember | pages/Auslastungsanalyse.py:26-29 | a booked-seconds row exists exactly when a booking joins to a facility under that key |
| Utilisation.AvailableMember | pages/Auslastungsanalyse.py:39-42 | an available-seconds row exists exactly when a window joins to a facility under that key |
| Utilisation.BookedSeconds | pages/Auslastungsanalyse.py:23-31 | the rows before grouping are exactly the joined bookings with their durations |
| Utilisation.AvailableSeconds | pages/Auslastungsanalyse.py:36-44 | the rows before grouping are exactly the joined windows with their length `ende - start` |
| Utilisation.BookedSecondsAppend | pages/Auslastungsanalyse.py:23-29 | the rows of two booking lists are those of the first followed by those of the second, so equal bookings each count |
| Utilisation.BookedSecondsOne | pages/Auslastungsanalyse.py:23-29 | one booking gives one row per facility joined to its segment, with that facility's key for the booking's weekday and the booking's duration |
| Utilisation.AvailableSecondsAppend | pages/Auslastungsanalyse.py:36-42 | the rows of two window lists are those of the first followed by those of the second |
| Utilisation.AvailableSecondsOne | pages/Auslastungsanalyse.py:36-42 | one window gives one row per facility joined to its segment, with that facility's key for the window's weekday and the window's length |
| Utilisation.LongDay | pages/Auslastungsanalyse.py:61 | the replace rewrites only the weekday of a grouped row: a code becomes its name and anything else stays |
| Utilisation.RowOf | pages/Auslastungsanalyse.py:26-65 | minutes are the second sums divided by 60; the division succeeds exactly when the available minutes are nonzero, and then utilisation times available equals booked times 100; otherwise it raises InvalidOperation when nothing was booked and DivisionByZero when something was |
| Utilisation.RowOfInjective | pages/Auslastungsanalyse.py:64-65 | two merged pairs with equal keys that give the same row are the same pair |
| Utilisation.MergeRows | pages/Auslastungsanalyse.py:64 | the merged rows are exactly those of pairs with equal keys |
| Utilisation.MergeRowsMultiplicity | pages/Auslastungsanalyse.py:64-65 | a merged row occurs as often as its booked row times as often as its available row |
| Utilisation.MergeRowsUnique | pages/Auslastungsanalyse.py:64-65 | with one available row per key, a merged row occurs as often as its booked row if its available row exists, and never otherwise |
| Utilisation.MergedMultiplicity | pages/Auslastungsanalyse.py:50-65 | on the page a merged row occurs as often as its booked group, so a key booked under both "Mo" and "Montag" yields a row for each |
| Utilisation.Merged | pages/Auslastungsanalyse.py:64-65 | the merged rows are exactly those of a booked group and an available group with equal keys |
| Utilisation.MergedKeys | pages/Auslastungsanalyse.py:64 | a key survives the merge exactly when both sides have it |
| Utilisation.MergedPair | pages/Auslastungsanalyse.py:64-65 | a merged row has the key and the minutes of the two groups it comes from |
| Utilisation.MergedSums | pages/Auslastungsanalyse.py:23-64 | a merged row's available minutes are its key's group sum; its booked minutes are the group sum of a key whose code was replaced by the row's weekday |
| Utilisation.AvailableSide | pages/Auslastungsanalyse.py:36-44 | an available group carries the sum of its key |
| Utilisation.BookedSide | pages/Auslastungsanalyse.py:23-61 | a booked group carries the sum of the key it had before the replace |
| Utilisation.FilterDay | pages/Auslastungsanalyse.py:67-68 | no selection, `""` or "Alle" keeps every row; otherwise exactly the rows of that weekday remain |
| Utilisation.FilterDayNeverAdds | pages/Auslastungsanalyse.py:67-68 | the filter never adds a row nor repeats one more often |
| Utilisation.BlocksOrdered | pages/Auslastungsanalyse.py:77 | every value of a lower rank block comes before every value of a higher one |
| Utilisation.DescendingConcat | pages/Auslastungsanalyse.py:77 | two descending blocks, the first wholly before the second, form a descending sequence |
| Utilisation.FiniteBlock | pages/Auslastungsanalyse.py:77 | the finite means, sorted by negated value, are finite and descending |
| Utilisation.InfiniteBlock | pages/Auslastungsanalyse.py:77 | a block of equal infinities or of NaNs is descending in any order |
| Utilisation.PartitionMultiset | pages/Auslastungsanalyse.py:77 | the four blocks together are a permutation of the entries |
| Utilisation.LowBlocks | pages/Auslastungsanalyse.py:77 | -inf then NaN is descending and lies below the finite block |
| Utilisation.FiniteAndLow | pages/Auslastungsanalyse.py:77 | finite, then -inf, then NaN is descending and lies below +inf |
| Utilisation.PartitionDescending | pages/Auslastungsanalyse.py:77 | +inf, the finite values largest first, -inf and NaN in this order form a descending sequence |
| Utilisation.SortDescending | pages/Auslastungsanalyse.py:77 | the descending sort is a permutation and puts larger values first and NaN last |
| Utilisation.Names | pages/Auslastungsanalyse.py:77 | the names of a ranking, position by position |
| Utilisation.MeanOf | pages/Auslastungsanalyse.py:77 | a name's mean is NaN exactly when each of its rows has no utilisation, and finite exactly when one of its rows has one |
| Utilisation.AllRaised | pages/Auslastungsanalyse.py:65-77 | the values averaged for a name are never infinite, and all are NaN exactly when no row of the name has a utilisation |
| Utilisation.Entries | pages/Auslastungsanalyse.py:77 | one entry per distinct facility name, carrying the mean utilisation of that name's rows |
| Utilisation.PermutedNames | pages/Auslastungsanalyse.py:77 | reordering the entries keeps the names distinct and the same |
| Utilisation.SameEntriesNoDup | pages/Auslastungsanalyse.py:77 | distinct entries that each carry their name's mean have distinct names |
| Utilisation.SameEntriesNames | pages/Auslastungsanalyse.py:77 | two lists with the same entries have the same names |
| Utilisation.Ranking | pages/Auslastungsanalyse.py:77 | the ranking is descending, has one entry for each name that occurs and no other, and each entry is that name's mean |
| Utilisation.FirstRaised | pages/Auslastungsanalyse.py:65 | the position of the first row whose division raises; every earlier row divides |
| Utilisation.MergedDivided | pages/Auslastungsanalyse.py:65 | every merged row carries the outcome of its own division |
| Utilisation.RaisesAt | pages/Auslastungsanalyse.py:65 | the first raising row is the first with zero available minutes, and it raises that row's exception |
| Utilisation.NoneRaises | pages/Auslastungsanalyse.py:65-68 | without a raising row every row has available minutes, and every row left by the filter is divided |
| Utilisation.MergePage | pages/Auslastungsanalyse.py:50-77 | no booked rows raises KeyError "wochentag", then no available rows KeyError "einrichtung_id"; otherwise the page fails exactly when a merged row has zero available minutes, with the first such row's exception; else the table is the filtered merge, all divided, and the ranking covers exactly its rows |
| Utilisation.GroupsEmpty | pages/Auslastungsanalyse.py:23-46 | a grouped result has no rows exactly when no booking, or no window, joins a facility |
| Utilisation.UtilisationPage | pages/Auslastungsanalyse.py:18-77 | the page raises KeyError when no booking, or no window, joins a facility; otherwise it fails exactly when some merged row has no available minutes, with the first such row's exception; otherwise the table is the filtered merge with every row divided, and the ranking covers exactly those rows |
| Groups.Keys | pages/Auslastungsanalyse.py:30 | the key column, position by position |
| Groups.SumForAbsent | pages/Auslastungsanalyse.py:26 | a key that does not occur sums to zero |
| Groups.GroupSum | pages/Auslastungsanalyse.py:26-30 | one row per distinct key that occurs, carrying the sum of that key's values |
| Groups.Groups | pages/Auslastungsanalyse.py:26-30 | one group for each listed key, with its sum |
| Groups.TotalGroups | pages/Auslastungsanalyse.py:26-30 | the groups' values add up to the sum over their keys |
| Groups.SumOverEmpty | pages/Auslastungsanalyse.py:26 | with no rows every sum is zero |
| Groups.SumOverStep | pages/Auslastungsanalyse.py:26-30 | one more row adds its value to the sum over distinct keys exactly when its key is among them |
| Groups.SumOverTotal | pages/Auslastungsanalyse.py:26-30 | summing the group sums over distinct keys that cover every row gives the total |
| Groups.GroupSumTotal | pages/Auslastungsanalyse.py:26-30 | grouping neither loses nor invents an amount: the group sums add up to the total |
| Groups.GroupSumEmpty | pages/Auslastungsanalyse.py:26-30 | grouping no rows gives no group, and grouping some rows gives at least one |
| Groups.GroupOnce | pages/Auslastungsanalyse.py:36-44 | in a result with distinct keys every row occurs once, and any other row never |
| Strings.TrimStart | pages/Auslastungs_Heatmap.py:66 | the result is a suffix, everything removed is whitespace, and it does not start with whitespace |
| Strings.TrimEnd | pages/Auslastungs_Heatmap.py:66 | the result is a prefix, everything removed is whitespace, and it does not end with whitespace |
| Strings.Trim | pages/Auslastungs_Heatmap.py:66 | `strip` gives a slice with no outer whitespace, and everything around it is whitespace |
| Strings.TrimFacts | pages/Auslastungs_Heatmap.py:66 | stripping the start and then the end leaves the middle between two whitespace runs |
| Strings.TrimDigits | pages/Auslastungs_Heatmap.py:66 | the result is a suffix, everything removed is a digit, and it does not start with a digit |
| Strings.ContainsSelf | pages/taetigkeit_suche.py:72-76 | every text contains itself and the empty text |
| Strings.LexIrreflexive | pages/taetigkeit_suche.py:20 | no text sorts before itself |
| Strings.LexTransitive | pages/taetigkeit_suche.py:20 | the sort order is transitive |
| Strings.LexTotal | pages/taetigkeit_suche.py:20 | of two different texts one sorts before the other |
| Strings.IndexOf | pages/freie_hallen.py:63 | the result is the first position of the character, or the length when it is absent |
| Strings.Split | pages/freie_hallen.py:63 | no piece of a split contains the separator |
| Strings.SplitJoin | pages/freie_hallen.py:63 | splitting a join at its separator gives back the parts when no part contains the separator |
| Strings.SplitCons | pages/freie_hallen.py:63 | a piece free of the separator, followed by the separator, splits off first |
| Strings.IndexOfPrefix | pages/freie_hallen.py:63 | searching past a separator-free prefix finds the separator right after it |
| DistrictLoad.DigitRun | pages/Auslastungs_Heatmap.py:66 | the length of the leading digit run: all digits, followed by a non-digit or the end |
| DistrictLoad.StripPrefix | pages/Auslastungs_Heatmap.py:66 | without a leading digit nothing is removed; otherwise the digit run and the whitespace after it go |
| DistrictLoad.Unstripped | pages/Auslastungs_Heatmap.py:66 | a name without a leading digit has no digit run and loses nothing |
| DistrictLoad.StripFacts | pages/Auslastungs_Heatmap.py:66 | after a leading digit run, the digits and the following whitespace are removed and nothing else |
| DistrictLoad.SliceOfSlice | pages/Auslastungs_Heatmap.py:66 | slicing a suffix is slicing the whole text at shifted bounds |
| DistrictLoad.CleanName | pages/Auslastungs_Heatmap.py:65-66 | the cleaned name has no outer whitespace, and a name without a leading digit is only stripped |
| DistrictLoad.TrimTrimmed | pages/Auslastungs_Heatmap.py:66 | `strip` leaves a text without outer whitespace unchanged |
| DistrictLoad.CleanNameIdempotent | pages/Auslastungs_Heatmap.py:65-66 | cleaning twice equals cleaning once whenever the first result does not start with a digit |
| DistrictLoad.TrimDigitsPrefix | pages/Auslastungs_Heatmap.py:66 | a digit run in front of a non-digit is removed in full |
| DistrictLoad.TrimStartPrefix | pages/Auslastungs_Heatmap.py:66 | a whitespace run in front of a non-space is removed in full |
| DistrictLoad.StripPrefixOf | pages/Auslastungs_Heatmap.py:66 | digits, then whitespace, then a rest that starts with neither: only the rest remains |
| DistrictLoad.CleanNameFixed | pages/Auslastungs_Heatmap.py:65-66 | a stripped name without a leading digit is already clean |
| DistrictLoad.CleanNameAfterPrefix | pages/Auslastungs_Heatmap.py:65-66 | digits, whitespace and a stripped name clean to that name |
| DistrictLoad.CleanNameExamples | pages/Auslastungs_Heatmap.py:65-66 | "12 Altstadt" and "Altstadt" both clean to "Altstadt" |
| DistrictLoad.LeadingSpaceNotIdempotent | pages/Auslastungs_Heatmap.py:66 | " 12 X" cleans to "12 X", which cleans further to "X" |
| DistrictLoad.SecondRunNotIdempotent | pages/Auslastungs_Heatmap.py:66 | "1 2 X" cleans to "2 X", which cleans further to "X" |
| DistrictLoad.SingleDigitPrefix | pages/Auslastungs_Heatmap.py:66 | "2 X" cleans to "X" |
| Frames.MatchesOf | pages/Auslastungs_Heatmap.py:73 | the right rows with a given key are exactly those whose key it is |
| Frames.MatchesMultiplicity | pages/Auslastungs_Heatmap.py:73 | a right row with the key occurs among the matches as often as in the right rows, any other not at all |
| Frames.SomePairs | pages/Auslastungs_Heatmap.py:73 | a left row paired with its matches holds each matching right row and nothing else |
| Frames.MergeRow | pages/Auslastungs_Heatmap.py:73 | a left row yields one row per matching right row, or one row with a missing right side when nothing matches |
| Frames.RowFacts | pages/Auslastungs_Heatmap.py:73 | the rows of one left row satisfy the left-merge facts |
| Frames.ConcatFacts | pages/Auslastungs_Heatmap.py:73 | the left-merge facts of two blocks carry over to their concatenation |
| Frames.LeftMerge | pages/Auslastungs_Heatmap.py:73 | every left row is kept; a present right side has the same key; a missing one means no right row matches; every matching pair appears |
| Frames.UniqueKeyMatches | pages/Auslastungs_Heatmap.py:73 | with unique right keys at most one right row matches |
| Frames.LeftMergeUniqueKeys | pages/Auslastungs_Heatmap.py:73 | with unique right keys the merge keeps exactly the left rows, in order |
| Frames.InnerMerge | pages/Auslastungsanalyse.py:64 | the inner merge holds exactly the pairs of left and right rows with equal keys |
| Frames.HeadPairs | pages/Auslastungsanalyse.py:64 | one left row contributes exactly its pairs with the matching right rows |
| Frames.InnerStep | pages/Auslastungsanalyse.py:64 | the pairs of the first left row and those of the rest together are the pairs of all left rows |
| Frames.InnerMergeCons | pages/Auslastungsanalyse.py:64 | the merge of several left rows is the first row's pairs followed by the merge of the rest |
| Frames.InnerMergeMultiplicity | pages/Auslastungsanalyse.py:64 | a pair with equal keys occurs as often as its left row times as often as its right row; any other pair never |
| Frames.HeadMultiplicity | pages/Auslastungsanalyse.py:64 | one left row contributes a matching pair as often as its right row occurs, and no other pair |
| DistrictLoad.Combine | pages/Auslastungs_Heatmap.py:68-73 | every district is kept; a combined row's minutes and population match its cleaned name, and are missing only when no row has that name; every such combination is present, so a name that two minutes rows clean to gives a row for each |
| DistrictLoad.AllCombined | pages/Auslastungs_Heatmap.py:73 | each district with any matching minutes row, or none when nothing matches, and likewise any population row, is a row of the two merges |
| DistrictLoad.CombinedRow | pages/Auslastungs_Heatmap.py:73 | each row of the two merges is consistent with its three sources |
| DistrictLoad.KeptRow | pages/Auslastungs_Heatmap.py:73 | each district has a row in the combined frame |
| DistrictLoad.CombineUniqueKeys | pages/Auslastungs_Heatmap.py:73 | with distinct cleaned names on both right sides each district appears once, in order |
| DistrictLoad.PerThousand | pages/Auslastungs_Heatmap.py:76 | a missing side gives NaN; a nonzero population gives a finite ratio that times population/1000 equals the minutes; a zero population raises InvalidOperation for zero minutes and DivisionByZero otherwise |
| DistrictLoad.FirstRaising | pages/Auslastungs_Heatmap.py:76 | the position of the first row with a zero population next to its minutes; no earlier row has one |
| DistrictLoad.ColumnError | pages/Auslastungs_Heatmap.py:76 | with an integer population column the division raises TypeError exactly when some row has both values; with a DECIMAL column it raises exactly when some row has both and a zero population, with the first such row's exception |
| DistrictLoad.NothingDivided | pages/Auslastungs_Heatmap.py:76 | when no row has both values every ratio is NaN |
| DistrictLoad.ShadeOf | pages/Auslastungs_Heatmap.py:90-99 | grey exactly for NaN; green below 50, yellow from 50 to below 150, red from 150; +inf red and -inf green |
| DistrictLoad.ShadeMonotone | pages/Auslastungs_Heatmap.py:94-99 | a larger value never gets a cooler colour |
| DistrictLoad.Hex | pages/Auslastungs_Heatmap.py:90-99 | every fill colour is `#` followed by six hexadecimal digits |
| DistrictLoad.HexInjective | pages/Auslastungs_Heatmap.py:90-99 | the four shades have four different colour codes |
| DistrictLoad.Draw | pages/Auslastungs_Heatmap.py:88-89 | the drawn areas are exactly those of the rows with a geometry |
| DistrictLoad.DrawMember | pages/Auslastungs_Heatmap.py:88-89 | an area is drawn exactly when some row with a geometry produces it |
| DistrictLoad.PageFacts | pages/Auslastungs_Heatmap.py:73-109 | for any name normaliser, every district with a geometry is drawn, only such districts are drawn, and one without minutes is grey |
| DistrictLoad.AllDrawn | pages/Auslastungs_Heatmap.py:88-109 | every district with a geometry is drawn under its cleaned name |
| DistrictLoad.OnlyDrawn | pages/Auslastungs_Heatmap.py:88-109 | every drawn area is the geometry of a district under its cleaned name |
| DistrictLoad.UnmatchedGrey | pages/Auslastungs_Heatmap.py:88-91 | every district with a geometry and no minutes row of its cleaned name is drawn grey |
| DistrictLoad.DrawnDistrict | pages/Auslastungs_Heatmap.py:88-89 | a district with a geometry is drawn under its cleaned name |
| DistrictLoad.DrawnFrom | pages/Auslastungs_Heatmap.py:88-89 | every drawn area is a district's geometry under that district's cleaned name |
| DistrictLoad.GreyDistrict | pages/Auslastungs_Heatmap.py:90-91 | a district with a geometry and no matching minutes is drawn grey |
| DistrictLoad.UnmatchedHasNoOccupancy | pages/Auslastungs_Heatmap.py:73 | a district that no minutes row matches gets missing minutes |
| DistrictLoad.CleanIsCleanName | pages/Auslastungs_Heatmap.py:68-70 | the page normalises all three name columns with `clean_name` |
| DistrictLoad.LoadError | pages/Auslastungs_Heatmap.py:21-70 | no district rows raises KeyError "geom_wkt"; then a NULL district name raises TypeError; then no minutes rows, or no population rows after named minutes rows, raises KeyError "stadtteil"; a NULL minutes name, or a NULL population name after named minutes rows, raises TypeError; no error exactly when all three results have rows and every name is present |
| DistrictLoad.IntegerGrey | pages/Auslastungs_Heatmap.py:76-91 | when no row has both values every drawn area is grey |
| DistrictLoad.DrawPage | pages/Auslastungs_Heatmap.py:73-109 | the page fails exactly when the division raises, with its exception; otherwise the drawn areas are exactly those of the combined rows with a geometry, each shaded by its ratio, every district with a geometry is drawn, unmatched ones grey, and with an integer population column all grey |
| DistrictLoad.HeatmapPage | pages/Auslastungs_Heatmap.py:20-109 | an empty result or NULL name stops the page with the loading error; otherwise it fails exactly when the division raises; a drawn map holds exactly the areas of the combined rows with a geometry, each shaded by its ratio, every district with a geometry, unmatched ones grey |
| DistrictLoad.NamedRows | pages/Auslastungs_Heatmap.py:68 | once every name is present a district row keeps its name and geometry |
| Ratios.DecimalDiv | pages/Auslastungsanalyse.py:65 | Decimal division succeeds exactly for a nonzero divisor, with quotient times divisor equal to the dividend; otherwise InvalidOperation for a zero dividend and DivisionByZero for any other |
| Ratios.FiniteCount | pages/Auslastungsanalyse.py:77 | the count of finite entries is zero exactly when there is none |
| Ratios.Mean | pages/Auslastungsanalyse.py:77 | the mean skips NaN; opposite infinities or only NaNs give NaN; a lone infinity wins; a finite mean times the finite count is the finite sum |
| Ratios.FiniteAppend | pages/Auslastungsanalyse.py:77 | finite sum and finite count add over concatenation |
| Ratios.MeanSkipsNaN | pages/Auslastungsanalyse.py:77 | removing a NaN entry does not change the mean |
| Sorting.Insert | pages/Segmenttypisierung.py:96 | inserting into a sorted list keeps it sorted and adds exactly that element |
| Sorting.ConsSorted | pages/Segmenttypisierung.py:96 | an element no larger than any element of a sorted list can go in front of it |
| Sorting.SortBy | pages/Segmenttypisierung.py:96 | the result is sorted by the key and is a permutation of the input |
| Sorting.InsertKeepsTies | pages/Segmenttypisierung.py:96 | inserting a later element keeps equal keys in input order |
| Sorting.FrontKeepsTies | pages/Segmenttypisierung.py:96 | putting a smaller-keyed element in front keeps equal keys in input order |
| Sorting.ConsKeepsTies | pages/Segmenttypisierung.py:96 | keeping the head in front of the inserted rest keeps equal keys in input order |
| Sorting.HeadBeforeRest | pages/Segmenttypisierung.py:96 | the head of a tie-ordered list precedes its equal-keyed successors |
| Sorting.SortByStable | pages/Segmenttypisierung.py:96 | the sort is stable: equal keys keep their input order |
| Seqs.Dedup | pages/nutzergruppen_karte.py:56 | `DISTINCT` keeps exactly the elements present, each once |
| Seqs.Filter | pages/nutzergruppen_karte.py:62-65 | a `WHERE` keeps exactly the elements that satisfy it |
| Seqs.FilterAll | pages/belegungs_heatmap.py:46-48 | a filter that every element satisfies keeps the whole list |
| Seqs.FilterAppend | pages/belegungs_heatmap.py:46-48 | filtering distributes over concatenation |
| Seqs.FilterMultiplicity | pages/belegungs_heatmap.py:46-48 | a kept element occurs as often as before, and a dropped one not at all |
| Seqs.Map | pages/belegungs_heatmap.py:59 | a projection has one result per element, position by position |
| Seqs.MapMembership | pages/belegungs_heatmap.py:59 | a value is in a projection exactly when some element projects to it |
| Seqs.MapAppend | pages/belegungs_heatmap.py:59 | projection distributes over concatenation |
| Seqs.MapInjectiveMultiplicity | pages/Auslastungsanalyse.py:64-65 | a projection that no other element shares occurs as often as its element |
| Seqs.DistinctCard | pages/Segmenttypisierung.py:96 | a duplicate-free list has as many distinct elements as entries |
| Seqs.NoDupMultiset | pages/Segmenttypisierung.py:96 | a duplicate-free list holds each of its elements once |
| Seqs.PermutationNoDup | pages/Segmenttypisierung.py:96 | a permutation of a duplicate-free list is duplicate-free |
| Seqs.Positions | pages/Segmenttypisierung.py:96 | the positions below n form a set of n elements |
| UsageClusters.StartHour | pages/Nutzungsmuster.py:32 | the start hour times 3600 is the start in seconds |
| UsageClusters.DurationMinutes | pages/Nutzungsmuster.py:33 | the duration in minutes times 60 is the duration in seconds |
| UsageClusters.HourThresholds | pages/Nutzungsmuster.py:73-75 | start hour below 12 or below 17 is start before 43200 or 61200 seconds |
| UsageClusters.LabelOf | pages/Nutzungsmuster.py:73-78 | below 12 is Vormittags, 12 up to below 17 is Nachmittags, 17 or above is Abend |
| UsageClusters.LabelMonotone | pages/Nutzungsmuster.py:73-78 | a later mean never gets an earlier name |
| UsageClusters.TextInjective | pages/Nutzungsmuster.py:74-78 | the three names are different texts |
| UsageClusters.Members | pages/Nutzungsmuster.py:72 | a cluster's start hours are exactly those of its rows, and an occurring cluster has at least one |
| UsageClusters.Labels | pages/Nutzungsmuster.py:70-78 | every cluster that occurs, and no other, is named after its mean start hour |
| UsageClusters.RowLabels | pages/Nutzungsmuster.py:80 | every row gets its cluster's name, so rows of one cluster share it |
| UsageClusters.MeanBelow | pages/Nutzungsmuster.py:72-73 | a mean is below a bound exactly when the sum is below bound times count |
| UsageClusters.SumBelow | pages/Nutzungsmuster.py:72 | values all below a bound sum to less than bound times count |
| UsageClusters.SumAtLeast | pages/Nutzungsmuster.py:72 | values all at least a bound sum to at least bound times count |
| UsageClusters.MorningCluster | pages/Nutzungsmuster.py:72-74 | a cluster whose bookings all start before noon is named Vormittags |
| UsageClusters.EveningCluster | pages/Nutzungsmuster.py:72-78 | a cluster whose bookings all start at 17:00 or later is named Abend |
| UsageClusters.LabelsNotInjective | pages/Nutzungsmuster.py:70-78 | two different clusters can share a name |
| UsageClusters.Count | pages/Nutzungsmuster.py:99 | a name's count is at most the number of rows |
| UsageClusters.CountsAddUp | pages/Nutzungsmuster.py:99-101 | the counts of the three names add up to the number of rows |
| UsageClusters.Hours | pages/Nutzungsmuster.py:32 | one start hour per row, position by position |
| UsageClusters.UsagePage | pages/Nutzungsmuster.py:44-84 | no rows gives the warning; fewer rows than k fails the fit; otherwise each row gets its units and its cluster's name, and the table is the first 50 rows |
| SegmentTyping.DisplayName | pages/Segmenttypisierung.py:68 | segment name, space, en dash, space, facility name |
| SegmentTyping.FirstIndex | pages/Segmenttypisierung.py:70 | the first position holding the value |
| SegmentTyping.Selected | pages/Segmenttypisierung.py:69-71 | the selected row has the segment id of the first row with the display name, and no earlier row has that id |
| SegmentTyping.SelectedUniqueIds | pages/Segmenttypisierung.py:69-71 | with one row per segment the selection is the first row carrying the display name |
| SegmentTyping.DuplicateDisplayFirstWins | pages/Segmenttypisierung.py:70 | of two rows sharing a display name the first is selected |
| SegmentTyping.SquaredDistance | pages/Segmenttypisierung.py:93-95 | the squared distance is never negative and is zero from a vector to itself |
| SegmentTyping.Indices | pages/Segmenttypisierung.py:96 | the row positions in order, without repeats |
| SegmentTyping.Candidates | pages/Segmenttypisierung.py:96 | the candidates are min(6, n) distinct rows in distance order, and no other row is closer than any candidate |
| SegmentTyping.PrefixNoDup | pages/Segmenttypisierung.py:96 | a prefix of a duplicate-free list is duplicate-free and contained in it |
| SegmentTyping.PermutedIndices | pages/Segmenttypisierung.py:96 | a permutation of the positions holds exactly the positions |
| SegmentTyping.CandidateBeforeRest | pages/Segmenttypisierung.py:96 | in a sorted list every element of a prefix is at most every element after it |
| SegmentTyping.SelfDistanceZero | pages/Segmenttypisierung.py:93-95 | the selected row is at distance zero from itself |
| SegmentTyping.SelfCandidate | pages/Segmenttypisierung.py:93-96 | the selected row is a candidate unless six other rows are at distance zero from it |
| SegmentTyping.SmallCandidatesAll | pages/Segmenttypisierung.py:96 | with fewer than six rows the selected row is a candidate |
| SegmentTyping.FullRangeHasAll | pages/Segmenttypisierung.py:96 | n distinct positions below n include every position |
| SegmentTyping.SubsetCard | pages/Segmenttypisierung.py:96 | a subset is no larger than its superset |
| SegmentTyping.AreaDeviation | pages/Segmenttypisierung.py:131 | the deviation is never negative, is zero exactly for equal areas, and is one of the two differences |
| SegmentTyping.AreaDeviationSymmetric | pages/Segmenttypisierung.py:131 | the deviation does not depend on the order of the areas |
| SegmentTyping.InfoFor | pages/Segmenttypisierung.py:84-90 | without a matching row the defaults "Unbekannt", "N/A" and "-" are shown; otherwise the first matching row |
| SegmentTyping.Recommend | pages/Segmenttypisierung.py:112-131 | the recommendations are exactly those of the candidates whose segment is not the selected one |
| SegmentTyping.RecommendAppend | pages/Segmenttypisierung.py:112-131 | the loop keeps the candidates' order: two blocks of candidates give the first block's recommendations, then the second's |
| SegmentTyping.RecommendCons | pages/Segmenttypisierung.py:112-131 | the first candidate's recommendation, if any, comes before those of the rest |
| SegmentTyping.RecommendOne | pages/Segmenttypisierung.py:112-131 | one candidate gives its recommendation unless it is the selected segment itself |
| SegmentTyping.RecommendedRows | pages/Segmenttypisierung.py:112-131 | every recommendation is a row of the data with a segment type from 0 to 4 |
| SegmentTyping.SegmentPage | pages/Segmenttypisierung.py:48-131 | no rows gives the warning; fewer than five rows fails the fit; otherwise the selection, the k-means type of that row, its details, and at most six recommendations, which are exactly those of the candidates outside the selected segment, in candidate order, each with its details and area deviation |

## Left out

- Streamlit widgets, folium and altair rendering, and the HTML files the pages write and read
  back. These are UI and file I/O. Each page ends in a `Views.View`, or a page-specific outcome
  datatype, holding the message or the items drawn.
- The database connection and credentials. These are I/O. The query results are input sequences.
- `StandardScaler`, `KMeans` and the category codes of `bereich`. These are foreign library code
  and float numerics. The cluster assignment, the scaled feature vectors and the segment types
  are parameters.
- SegmentTyping.SquaredDistance: stated as never negative and zero for equal vectors. It does not
  state "zero only for equal vectors". The candidates are ordered by the squared distance, which
  orders like `np.linalg.norm`. The square root is not modelled.
- SegmentTyping.SegmentPage: the segment type range 0..4 is taken from the `types` parameter,
  not derived from a k-means fit with five clusters.
- UsageClusters.UsagePage: the k-means assignment is a parameter. The fit failing on fewer rows
  than clusters is modelled as `FitError`. The random seed and `n_init` are not modelled.
- pages/Nutzungsmuster_Sportarten.py is not part of this model. It is sklearn clustering and
  charting without logic of its own.
- SQL `LIKE` is modelled as a plain substring test. `%` and `_` inside the activity text are not
  modelled.
- ActivitySearch.ActivityList: MySQL's default collation compares text case-insensitively, in
  `DISTINCT`, `ORDER BY`, `=` and `GROUP BY` alike. The model compares codepoints exactly, so it
  keeps "Tanz" and "tanz" apart and orders them by codepoint. The same holds for the weekday and
  activity comparisons and the groupings on the other pages.
- `\d`, `\s` and `str.strip` are restricted to ASCII: the ten digits, and the ten whitespace
  characters Python recognises there (space, tab to carriage return, and 0x1C to 0x1F). Unicode
  digits and non-ASCII whitespace such as U+0085 and U+00A0 are not modelled.
- MySQL rounds `/` to four decimals, and `Decimal` division rounds to 28 significant digits. The
  model divides exactly over the reals.
- DistrictLoad.HeatmapPage: the SQL type of `einwohner.bevoelkerung` is not in the source. It is
  the parameter `pop`. An integer column makes every division with both values present raise
  `TypeError`; a `DECIMAL` column divides.
- DistrictLoad.HeatmapPage: a NULL `geom_wkt` is taken to parse to no geometry, as in shapely 2.
  Malformed WKT, which makes `wkt.loads` raise, is not modelled: geometries are opaque texts.
- The booked-minutes query of the Auslastungs-Heatmap page, including its join of `segment_id`
  with `adressen.id` (pages/Auslastungs_Heatmap.py:36-42). Its per-district result rows are an
  input.
- `TIME_TO_SEC`, `TIMEDIFF` and `TIMESTAMPDIFF`: times are already seconds. A window's length is
  `ende - start`.
- SQL result order is not specified. The model produces rows in nested-loop order. Its
  properties are stated on membership and multiplicity, except where the source fixes an order
  (`ORDER BY`, `sort_values`, `head`).
- `sort_values` uses an unstable quicksort by default. The model sorts stably, keeping ties in
  row order.
- The `GROUP BY e.id, b.wochentag` groups also carry `e.name`. The model groups on
  (id, name, weekday), which is the same grouping because a facility id has one name.
- The tooltip and popup formatting (`:.2f`, HTML) and the debug tables of the pages.
- NULL start or end times and a NULL `dauer` of bookings are not modelled. Every booking has all three.
- FreeHalls.FreeHallsPage: states which markers appear, not how often or in what order.
- Utilisation.Ranking: pandas `groupby` sorts the names before `sort_values` reorders them. The
  model states the descending order and the entries, not how ties are broken.
- SegmentTyping.SegmentPage: a NULL `laenge`, `breite` or `flaeche` is not modelled; the fields
  are reals. In the source `astype(float)` turns NULL into NaN and the k-means fit then raises
  `ValueError` (pages/Segmenttypisierung.py:53-65).
- FreeHalls.FreeHallsPage: a NULL `segmente.einrichtung_id` is not modelled; ids are integers.
  In the source no booking matches a NULL id, so `None` is listed as free, the list is non-empty
  and the page draws a map where the model would show the info message
  (pages/freie_hallen.py:33-45, 90-92).
- SegmentTyping.InfoFor: returns the first address row and promises nothing about the rest.
  The cursor is opened by `get_db_connection`, which is not part of this model; on an unbuffered
  cursor a facility with several address rows leaves rows unread after `fetchone`, and the next
  `execute` or `close` raises "Unread result found" (pages/Segmenttypisierung.py:75-84, 115-123).
