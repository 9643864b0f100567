# World clock comparison: a Dafny model

The repository is a one-page Streamlit dashboard (`main.py`). It shows the current time
in two chosen countries, their UTC-offset difference and a time-of-day converter. It also
draws a world map of UTC offsets and keeps a short history of comparisons. This project
models the logic inside that page:

- `Zones`: the country → zone table (`pytz.country_timezones`), an abstract zone database,
  and `get_timezone_from_country_code`. The lookup gives the first zone of the country, or
  `None` when the `try` block raises `KeyError` or `IndexError`.
- `Clock`: times of day as `%H:%M:%S` shows them, and naive datetimes laid out as seconds on
  a timeline starting at day 0 (`datetime.combine` and its inverse).
- `Conversion`: `localize` in the source zone followed by `astimezone` to the target zone,
  as integer arithmetic on seconds with an explicit change of day.
- `Comparison`: the comparison section. It runs only when both lookups give a truthy zone
  name, and otherwise shows only the error message. It holds the current local times, both
  offsets, their difference and the "misma zona horaria" label.
- `WorldMap`: the loop that builds `country_data`. It keeps one row per country with a
  non-empty zone list, using that list's first zone. The loop is proved against a recursive
  specification and against an independent filter.
- `History`: the session's `historial`. A pair is appended only if absent, and the page
  lists only the latest ten. The session is a class whose field is `None` while the key is
  missing from the session state.

The zone database is the datatype `ZoneDb`, which asks two questions, both answered in
whole seconds east of UTC:
- `utcOffset(zone, instant)` is the offset `astimezone` applies at a UTC instant.
- `localizeOffset(zone, wall)` is the offset `localize` picks for a naive wall time.

These are inputs, and so are the clock reading `now` (UTC seconds) and the caller's date
`today` (a day number). Two predicates say when a zone behaves away from a daylight-saving
boundary:
- `LocalizeConsistent` fails only inside a spring-forward gap.
- `LocalizeRecovers` fails only inside a fall-back overlap.

The identity and round-trip properties require them.

In these points the model follows the code:
- The stored history is never truncated. Only the listing is limited to ten.
- `localize` is called with its default disambiguation, so it never raises on an ambiguous
  or nonexistent local time. The model's `localizeOffset` returns whatever offset it picks.
- The guard `if tz1 and tz2` tests truthiness, so a zone name `""` would also fail it
  (`Zones.Truthy`). Real zone names are never empty.

The reference date is the caller's own date (`datetime.now().date()`), not the date in
either zone. The model keeps this: `today` is one parameter used for the source zone.

## Model

| member | source | states |
|---|---|---|
| `Zones.TimezoneOf` | main.py:182-186 | the lookup gives a zone exactly when the code is in the table with a non-empty list, and then it is the list's first zone; a missing code or an empty list gives `None`, never an error |
| `Comparison.ComparePage` | main.py:188-223 | the comparison is produced exactly when both lookups give a truthy zone, otherwise only the error page; its zones are the two first zones, its offsets are the database's current offsets, its local times are `LocalTime` of each zone now, difference = offset2 − offset1, the same-zone label is shown exactly when the offsets are equal, and the conversion is `Convert` from zone 1 to zone 2 |
| `Comparison.CompareSwapped` | main.py:192-202 | swapping the two countries compares in the same cases, swaps zones, local times and offsets, negates the difference and keeps the same-zone label |
| `Comparison.CompareSameZone` | main.py:192-220 | two countries with the same first zone show difference 0, the same-zone label, equal local times and the input date and time unchanged (away from a spring-forward gap) |
| `Conversion.Convert` | main.py:215-218 | the result is a valid date and time whose point on the timeline is the localized input instant plus the target zone's offset at that instant |
| `Comparison.LocalTime` | main.py:193-194 | the shown current time is valid and its seconds since midnight are (now + the zone's current offset) mod 86400 |
| `Conversion.ConvertShown` | main.py:215-220 | the converted time of day is (input seconds − source offset + target offset) mod 86400, and its date is the reference date plus the floor of that sum over 86400 |
| `Conversion.ConvertRollover` | main.py:215-218 | with offsets at most a day apart (every pair of first zones) the result lands on the previous, same or next day, rolling forward exactly when the shifted seconds reach 86400 and back exactly when they go below 0 |
| `Conversion.ConvertEqualOffsets` | main.py:215-218 | when the source offset equals the target offset at that instant, the result is the input date and time |
| `Conversion.ConvertSameZone` | main.py:215-218 | converting into the same zone is the identity whenever `localize` picks the zone's real offset |
| `Conversion.ConvertRoundTrip` | main.py:215-218 | converting the result back to the source zone gives the original date and time, unless a daylight-saving gap or overlap makes `localize` pick another offset |
| `Conversion.ExampleBuenosAiresToMadrid` | main.py:215-218 | with Buenos Aires at UTC−3 and Madrid at UTC+1, 09:00 converts to 13:00 on the same day |
| `Clock.FromSeconds` | main.py:220 | the `%H:%M:%S` fields of a second count below 86400 are a valid time of day with that many seconds since midnight |
| `Clock.FromSecondsOfSeconds` | main.py:220 | a valid time of day is recovered from its seconds since midnight |
| `Clock.Combine` | main.py:216 | `datetime.combine(date, time)` lies on that date, at the time's seconds since midnight |
| `Clock.Split` | main.py:218-220 | the date and time read from a point of the timeline are valid and combine back to it |
| `Clock.SplitCombine` | main.py:216 | splitting a combined date and time gives both back |
| `WorldMap.BuildWorldTable` | main.py:226-241 | the loop's result is exactly `WorldRows` of the countries |
| `WorldMap.WithZones` | main.py:230-231 | the kept countries are exactly the countries whose zone list exists and is non-empty |
| `WorldMap.RowOf` | main.py:232-241 | a row carries the country's name and code, the zone the lookup returns for the code, that zone's current offset and its current local time |
| `WorldMap.WorldRowsFollowCountries` | main.py:226-241 | there is one row per country with zones, in the countries' order, and row k is built from the k-th such country |
| `WorldMap.WorldRowsUseFirstZone` | main.py:230-238 | every row's code is in the zone table with a non-empty list, its zone is the one the lookup returns (the first), and it shows a country from the source list |
| `WorldMap.WorldRowsOmitZoneless` | main.py:230-231 | a code absent from the table, or listed with no zones, has no row |
| `WorldMap.WorldRowsUniqueCodes` | main.py:226-241 | when the country codes are unique, so are the rows' codes |
| `History.Recorded` | main.py:277-278 | after recording, the pair is present, the length grows by one exactly when it was absent, the old entries stay in front in their order, and no duplicates appear |
| `History.Latest` | main.py:281 | for n > 0, `h[-n:]` has min(len, n) entries, the last ones of `h` in order |
| `History.RecordedIdempotent` | main.py:277-278 | recording the same pair twice is the same as recording it once |
| `History.LatestAfterNewQuery` | main.py:276-281 | after a new pair the stored list grows by one without a cap, and the listing is the nine latest earlier entries followed by the new pair |
| `History.Line` | main.py:282 | a listed line is a dash, the first country name, an arrow and the second name, each recoverable from its position |
| `History.Session.Record` | main.py:273-278 | the history is created as `[]` only when absent, the pair is appended only when absent, and the list stays free of duplicates |
| `History.Session.ShowHistory` | main.py:280-282 | the section lists min(len, 10) lines, one per most recent stored pair, oldest first |

## Left out

- Streamlit page composition, the CSS palettes and the dark-mode script (main.py:1-160), and the author card and footer (main.py:284-310): presentation only.
- The decorative image loads, whose failure is swallowed (main.py:163-166, main.py:290): I/O.
- The pycountry registry and the sorted name list and name → code dictionary built from it (main.py:169-180): library data and widget choices. Country codes and names are inputs.
- The Plotly choropleth and its layout (main.py:243-270): a foreign charting library. The model stops at the rows handed to it.
- The session-state default for the time input widget (main.py:206-213): widget plumbing. The chosen time is an input.
- pytz's zone rules (daylight saving and how `localize` resolves gaps and overlaps): the database is the abstract `ZoneDb`, and no IANA data is modelled.
- `pytz.timezone` raising `UnknownTimeZoneError` for an unknown name: `ZoneDb` answers for every name. Names taken from the country table are always known.
- Upper-casing of keys by pytz's country table: the model looks codes up exactly as given. pycountry's codes are already upper case.
- The system clock (`datetime.now`): `now` and `today` are parameters.
- Microseconds: times and offsets are whole seconds.
- Float hours (`/ 3600`) and the `+.1f` formatting: offsets and the difference are integer seconds. For these values the float difference is zero exactly when the integer one is.
- Comparison.CompareSwapped: says nothing about the conversion, because swapping the countries also reverses the conversion's direction.
