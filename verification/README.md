# Opening-hours status of a medical office

A model of `app.py`, the small web application that tells visitors whether
the office ("ordinacija") is open now. The home page takes the weekday's
default hours from a fixed weekly table. It replaces them by the override
stored for today's date, when there is one, and builds the status
message: an HTML text, a text for speech, an upper-case banner and an icon.
The admin page normalises a submitted override and stores it under the
stripped date. The delete route removes the override of a date.

The model is pure: the override store is a `map<string, OverrideValue>`
passed in and returned, and the weekday, date string and wall-clock time
are parameters.

Modules:

- `Wrappers`: `Option`, for Python's `None`-or-value results.
- `Text`: `str.strip()`, `str.join`, `upper()`/`lower()`, and a reference replacement of `<br>` by a space, used to relate the speech text to the HTML.
- `Numbers`: `str()` of a whole number and the part of `int()` the admin form relies on.
- `Schedule`: the weekday tables, stored override values, and how today's bounds are resolved.
- `Status`: the open test, the hour label and the home page message.
- `Admin`: form normalisation, the store update, and deletion.

A stored value that is not a two-element list (`Other`) leaves the weekday
default in force (app.py:71); it does not close the day. An admin write uses
the stripped date as its key (app.py:113). Deletion uses the date from the
URL as it is (app.py:131).

Two notions of whitespace are kept apart. `str.strip()` removes everything
`str.isspace()` accepts, the ASCII separators U+001C to U+001F included.
`int()` skips only the ASCII whitespace characters and the non-ASCII
Unicode whitespace around a number; it rejects a number padded with
U+001C to U+001F.

The open test is stated in minutes (`start*60 <= hour*60 + minute < end*60`).
`Status.OpenAtIsFractional` proves it equal to the code's real-valued test
`start <= hour + minute/60 < end` for whole-hour bounds. The code computes
that test in floating point. For minutes 0..59 the float `hour + minute/60`
lies strictly between `hour` and `hour + 1` when `minute > 0`, and equals
`hour` when `minute == 0`. So comparing it with a whole number gives the
same answer as the exact value.

## Model

| member | source | states |
|---|---|---|
| Schedule.WeekdayDefault | app.py:9-17 | Monday to Friday default to 10-20, Saturday to 10-14; only Sunday has no default hours |
| Schedule.WeeklyHoursEntries | app.py:59-62 | the lower-cased full name of every weekday is a key of the weekly table, so the lookup never misses; Sunday's entry is empty |
| Schedule.FullOverrideWins | app.py:62-73 | an override with both hours set gives exactly those hours on every weekday, Sunday included |
| Schedule.PartialOverrideCloses | app.py:70-77 | an override list with an unset hour closes the day whatever the default |
| Schedule.DefaultStands | app.py:62-71 | with no override, or one that is not a two-element list, the weekday default holds and Sunday is closed |
| Schedule.OpenExactly | app.py:62-76 | a day has the interval [s, e) exactly when the override gives both hours s and e, or there is no list override and the default is s to e |
| Status.OpenAtIsFractional | app.py:81-82 | the open test in minutes agrees with `start <= hour + minute/60 < end` for whole-hour bounds |
| Status.OpenBoundaries | app.py:81-82 | the closing hour at minute 0 counts as closed; the opening hour at minute 0 counts as open exactly when start < end |
| Status.HourLabel | app.py:47-55 | the label of a non-negative whole hour is its canonical decimal spelling: digits only, no leading zero, denoting the hour; a negative hour gets a minus sign before the canonical spelling of its magnitude; the label contains no `<` |
| Status.HourLabelReadsBack | app.py:53 | the label of a whole hour reads back under `int()` as that hour |
| Status.HourLabelTen | app.py:53 | the label of 10 is "10" |
| Status.HoursLine | app.py:86 | the hours line contains no `<`, so it cannot hold a line break |
| Status.StatusLines | app.py:84-93 | an open-interval day has exactly two status lines, and neither contains `<`, so joining them with `<br>` can be undone |
| Status.Format | app.py:76-99 | the icon is `open.png` exactly when both bounds are set and the time passes the open test, else `close1.png`; a closed day shows the non-working-day sentence; the speech text is the HTML with every `<br>` replaced by a space; the banner is the upper-cased HTML |
| Status.OpenDayText | app.py:83-97 | on an open-interval day the HTML is the open line when the open test passes (the closed line otherwise), `<br>`, then the hours line; the speech text has a space in place of `<br>` |
| Status.HoursLineIndependentOfClock | app.py:84-94 | the second line is the same whatever the time; two times with the same open-test result give the same message |
| Status.NonWorkingBanner | app.py:76-79 | on a closed day the banner is "DANAS JE NERADNI DAN." and the icon is `close1.png` |
| Status.WeekdayHoursLine | app.py:86 | the hours line for 10 to 20 reads "Danas je radno vrijeme od 10 do 20 časova." |
| Status.WednesdayScenarios | app.py:81-97 | a Wednesday with no override is open at 14:00 and closed at 21:00, with hours 10 to 20 |
| Status.SundayOverrideScenario | app.py:70-73 | Sunday with override [9, 12] is open 9 to 12 and shows `open.png` at 10:30; Sunday without an override is closed |
| Admin.ToIntOrNone | app.py:41-45 | a missing field or an empty text gives None; a present text gives what `int()` reads from it; the decimal text of any whole number gives that number |
| Admin.Normalise | app.py:114-120 | the stored value is a two-element list that is never half set; it holds hours exactly when the day is not marked non-working and both fields parse, and then it holds those parsed hours; start < end is not checked |
| Admin.Submit | app.py:113-121 | the normalised value is stored under the stripped date; the key set gains only that date; every other entry is unchanged |
| Admin.Delete | app.py:130-132 | the date's entry is removed and every other entry is kept; deleting an absent date leaves the store unchanged |
| Admin.SubmitIdempotent | app.py:121 | submitting the same form twice gives the same store as submitting it once |
| Admin.DeleteUndoesSubmit | app.py:121-132 | deleting the date a submission wrote, when that date was new, restores the previous store |
| Admin.SubmitThenResolve | app.py:113-121 | after a submission its date is open with the submitted hours when both parse and the day is not marked non-working, and closed otherwise, on every weekday |
| Admin.SubmitKeepsOtherDates | app.py:121 | a submission does not change the effective schedule of any other date |
| Admin.ChristmasClosed | app.py:114-115 | a submission for 2024-12-25 marked non-working stores [None, None], and that date resolves to closed |
| Admin.EmptyStartClosed | app.py:117-120 | an empty start with end "18" is stored as [None, None], not as half an interval |
| Admin.TypedHoursStored | app.py:117-121 | typed hours "9" and "12" are stored as [9, 12] |
| Numbers.NatToString | app.py:53 | the decimal text of a natural number is digits only, has no leading zero and denotes that number |
| Numbers.IntToString | app.py:53 | a non-negative number is written in canonical digits denoting it; a negative number is a minus sign followed by the canonical digits of its magnitude, which never start with 0 |
| Numbers.ParseInt | app.py:41-45 | `int()` accepts exactly an optional sign followed by digit groups, once the whitespace `int()` skips is removed from both ends; plain digits read as their decimal value, `-` followed by plain digits as its negation; the sign fixes the sign of the result |
| Numbers.ParseDigitGroups | app.py:43 | digit groups are recognised exactly when they match the grammar; a plain digit string denotes its decimal value |
| Numbers.ParseIntOfIntToString | app.py:43-53 | reading back the decimal text of any whole number gives that number |
| Numbers.ParseIntIgnoresPadding | app.py:43 | whitespace of the kind `int()` skips, around a number, does not change what `int()` reads |
| Text.Strip | app.py:113 | `strip()` drops exactly the leading and trailing characters `str.isspace()` accepts and keeps the middle; the result neither starts nor ends with whitespace |
| Text.StripIdempotent | app.py:113 | stripping twice gives the same text as stripping once, for either kind of whitespace |
| Text.ReplaceBreaksOfJoin | app.py:96-97 | joining lines with `<br>` and then replacing every `<br>` by a space is joining them with a space, when no line contains `<` |
| Text.Upper | app.py:99 | upper-casing keeps the length and maps each character by the letter table |
| Text.UpperIdempotent | app.py:99 | upper-casing an upper-cased text changes nothing |
| Text.Lower | app.py:60 | lower-casing keeps the length and maps each character by the letter table |
| Text.CaseRoundTrip | app.py:60 | upper- and lower-casing are inverse on the letters they change |
| Status.HourLabelIsDecimal | app.py:53 | any canonical decimal spelling of the hour is exactly its label, so the label is `str(h)` |
| Numbers.CanonicalUnique | app.py:53 | two canonical digit strings with the same value are the same string |
| Numbers.IntToStringUnique | app.py:53 | `IntToString(i)` is the only canonical decimal spelling of `i`, signed or not |
| Numbers.RemoveUnderscores | app.py:43 | the result holds no underscore and is no longer than the input |
| Numbers.RemoveUnderscoresDigits | app.py:43 | digits and underscores leave only digits; plain digits are left unchanged |
| Numbers.RemoveUnderscoresKeeps | app.py:43 | taking out underscores keeps every other character, as often as it occurs |
| Numbers.RemoveUnderscoresAppend | app.py:43 | taking out underscores commutes with concatenation, so the remaining characters keep their order |
| Numbers.ParseIntGroups | app.py:43 | unsigned digit groups read as the value of their digits with the underscores taken out |
| Numbers.ParseIntPlus | app.py:43 | a `+` before digit groups does not change the value |
| Numbers.ParseIntMinus | app.py:43 | a `-` before digit groups negates the value |
| Numbers.ParseIntUnderscore | app.py:43 | an underscore between two digit groups does not change the value |
| Numbers.SeparatorIsNotIntPadding | app.py:43 | U+001C before a number is removed by `strip()` but makes `int()` fail |
| Text.StripOf | app.py:43 | stripping drops exactly the leading and trailing whitespace of the given kind and keeps the middle; the result neither starts nor ends with such whitespace |
| Admin.FieldRejected | app.py:117-118 | "abc" and "9h" parse to None |
| Admin.FieldPaddedSigned | app.py:117-118 | " +09 " parses to 9 |
| Admin.FieldUnderscore | app.py:117-118 | "1_0" parses to 10 |
| Schedule.DefaultBounds | app.py:62-66 | the weekday default as two bounds: both unset exactly on Sunday, whose table entry is None; 10 and 20 from Monday to Friday, 10 and 14 on Saturday |
| Schedule.Resolve | app.py:62-73 | today's bounds: the stored two-element list for the date, element for element, or else the weekday default |
| Schedule.ToEffective | app.py:76 | closed when either bound is unset, otherwise open with both bounds |
| Schedule.EffectiveFor | app.py:62-76 | the effective schedule of a weekday and date |
| Status.OpenAt | app.py:81-82 | the open test in whole minutes, half-open at the closing hour |
| Status.Index | app.py:57-99 | the home page shows `open.png` exactly when the resolved day is open and the time passes the open test; a closed day shows the non-working-day sentence |
| Admin.DateKey | app.py:113 | the key a submission is stored under is the submitted date with exactly its leading and trailing whitespace removed: the middle is kept, everything cut off is whitespace, and the key neither starts nor ends with whitespace |
| Text.Join | app.py:96-97 | `sep.join(lines)` |

## Left out

- Flask routing, templates, redirects, the admin listing sorted by date, and the startup code: web plumbing with no decision logic.
- Loading and saving the JSON file, and the fallback to an empty store when the file is missing or corrupt: file I/O. The store is a map passed in and returned.
- `now_podgorica` and its timezone fallback: the weekday, date string and time are parameters.
- The fractional-hour branch of `sat_label`: the weekly table and the admin form only produce whole hours, so the model has whole-hour bounds only.
- Override list elements that are neither whole numbers nor `null` (floats, strings): the application never writes them. Any value that is not a two-element list is `Other`.
- `request.form["datum"]` missing: the store is loaded first (app.py:111), then app.py:113 raises before anything is written, and Flask answers 400. The model takes the date as given.
- Numbers.ParseInt: accepts ASCII digits only; Python's `int()` also accepts other Unicode decimal digits.
- Numbers.ParseInt: has no limit on the number of digits; Python's `int()` rejects a text of more than 4300 digits by default. Hours never come near it.
- Text.Upper: maps ASCII letters and č, ć, š, ž, đ only; Python's full Unicode case mapping, including changes of length, is not modelled. These letters cover every character the banner can contain.
- Text.Lower: maps ASCII letters and Č, Ć, Š, Ž, Đ only, for the same reason; they cover every character of the weekday names.
- Concurrent writes to the store: every request does a whole-store read-modify-write, which the pure model makes sequential.
