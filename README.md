# Sleep-diary to advanced-sleeplog conversion, in Dafny

This project models the conversion engine of `convert_sleeplog.py`. The engine turns a sleep
diary into the wide "advanced sleeplog" table that GGIR reads. A diary is a list of episodes,
each with an optional wake-up time (`Out_Bed`) and an optional bedtime (`In_Bed`). The output
has one row per segment: `ID` first, then a `D{i}_date, D{i}_wakeup, D{i}_inbed` triple for
each calendar date in the segment's range.

The model follows the program's steps:

- **Date attribution** (`Dates`). A wake-up belongs to its own date. A bedtime belongs to its
  own date when its hour is at least the noon cutoff, and otherwise to the previous date: this
  is the midnight-crossing rule. Dates are proleptic Gregorian `(year, month, day)` triples.
  `PrevDay` replaces `timedelta(days=1)` and is proved against a day ordinal. Calendar keys
  stay ISO `YYYY-MM-DD` strings, as in the program, and are compared as Python compares
  strings. The model proves that this string order is the chronological order.
- **The calendar** (`SleepCalendar`). `BuildCalendar` is the imperative loop of
  `build_calendar`. It reads the date's entry (`setdefault`), sets the field if it is unset,
  and otherwise records a duplicate warning. The loop is proved equal to a fold,
  `ScatterPrefix`. The lemmas about that fold state:
  - first write wins;
  - which keys exist;
  - how many warnings each (date, field) pair produces.
- **One wide row** (`WideRow`, with `Ordering`). The model covers `sorted()`, the two
  range-filter comprehensions and the `enumerate` loop that extends `header` and `values`.
- **Assembly** (`Conversion`). The model covers:
  - the `dropna` emptiness check;
  - one row per segment;
  - padding every row with `""` up to the widest;
  - `max(..., key=len)` over the headers, which picks the first longest one;
  - padding that header.

`Text` holds the digit and string helpers and `sanitise_id`. `Wrappers` holds `Option` and
`Result`.

The warnings that the program sends to its logger are returned as a sequence of
`DuplicateWarning(date, field)` values. The two `ValueError`s of the conversion are returned
as `Failure(NoUsableRows)` and `Failure(NoSegments(warnings))`. `NoSegments` stands for the
error that `max()` raises on an empty segment list. By then the calendar has been built and its
duplicate warnings logged, so `NoSegments` carries them. `Convert`'s postcondition fixes the
result as a function of its inputs, so running the pipeline twice on the same input gives the
same table.

## Model

| member | source | states |
|---|---|---|
| Text.SanitiseId | convert_sleeplog.py:37-39 | the result has no `/`, is no longer than the input, and has every other character exactly as often as the input |
| Text.SanitiseIdConcat | convert_sleeplog.py:37-39 | sanitising distributes over concatenation, so the characters that remain keep their order |
| Text.SanitiseIdKeepsClean | convert_sleeplog.py:37-39 | an ID without `/` is returned unchanged |
| Text.SanitiseIdIdempotent | convert_sleeplog.py:37-39 | sanitising twice is sanitising once |
| Text.StrLess | convert_sleeplog.py:123-129 | Python's `str` `<`: a proper prefix sorts first, and no string sorts before one of its prefixes; the lemmas below make it a strict total order |
| Text.StrLessTotal | convert_sleeplog.py:123 | Python string order is total on keys, which `sorted` relies on |
| Text.StrLessTransitive | convert_sleeplog.py:123 | Python string order is transitive |
| Dates.PrevDay | convert_sleeplog.py:49 | `dt - timedelta(days=1)` on a valid date yields a valid date |
| Dates.PrevDayIsDayBefore | convert_sleeplog.py:49 | that date's day ordinal is exactly one less, across month, year and leap-day boundaries |
| Dates.FormatDate | convert_sleeplog.py:49-50 | `strftime("%Y-%m-%d")` yields ten characters; FormatDateRoundTrip shows it reads back as the same date |
| Dates.FormatDateRoundTrip | convert_sleeplog.py:49-50 | the `%Y-%m-%d` rendering of a date parses back to that date |
| Dates.IsoOrderIsChronological | convert_sleeplog.py:123-129 | comparing two `%Y-%m-%d` keys as strings is comparing their dates in time |
| Dates.ChronologicalOrder | convert_sleeplog.py:123-129 | field-wise (year, month, day) order is day-ordinal order |
| Dates.FmtTime | convert_sleeplog.py:61-63 | `fmt_time` yields eight characters; FmtTimeRoundTrip shows it keeps hour, minute and second |
| Dates.FmtTimeRoundTrip | convert_sleeplog.py:61-63 | `%H:%M:%S` keeps hour, minute and second: it parses back to the same time |
| Dates.FmtTimeExample | convert_sleeplog.py:61-63 | 22:00:00 is rendered with two-digit zero-padded fields |
| Dates.CalendarDateForWakeup | convert_sleeplog.py:53-58 | the wake-up key is a ten-character ISO date; WakeupAttribution shows it names the timestamp's own date |
| Dates.CalendarDateForInBed | convert_sleeplog.py:42-50 | the bedtime key is a ten-character ISO date; InBedAttribution states both sides of the cutoff test |
| Dates.WakeupAttribution | convert_sleeplog.py:53-58 | a wake-up key names the timestamp's own date, with no cutoff involved |
| Dates.InBedAttribution | convert_sleeplog.py:42-50 | a bedtime at or after the cutoff hour gets the same key as a wake-up at that time; a bedtime before it gets the key of the day whose ordinal is one less |
| Dates.MidnightCrossingExamples | convert_sleeplog.py:42-58 | with cutoff 12, a 2025-01-02 01:30 bedtime goes to 2025-01-01; a 13:30 bedtime stays on 2025-01-02; a 01:30 wake-up stays on 2025-01-02 |
| Ordering.SortKeys | convert_sleeplog.py:123 | `sorted(calendar.keys())` returns every key exactly once, in strictly ascending string order (the unique such sequence) |
| Ordering.SortedUnique | convert_sleeplog.py:123 | two strictly increasing sequences with the same elements are equal |
| Ordering.KeepFrom | convert_sleeplog.py:126-127 | keeps exactly the keys `>= start_date`, and keeps them sorted |
| Ordering.KeepUpTo | convert_sleeplog.py:128-129 | keeps exactly the keys `<= end_date`, and keeps them sorted |
| SleepCalendar.Place | convert_sleeplog.py:84-97 | one `setdefault` / set-if-unset / warn block as a function of the calendar and warnings; PlaceEffect states its whole effect |
| SleepCalendar.Step | convert_sleeplog.py:77-97 | one loop iteration, wake-up before bedtime; StepKeys, StepLookup and StepWarnings state its effect |
| SleepCalendar.ScatterAll | convert_sleeplog.py:70-99 | the calendar and warnings `build_calendar` returns, as a fold over the episodes in order; BuildCalendar computes it and the lemmas below state its properties |
| SleepCalendar.PlaceEffect | convert_sleeplog.py:82-97 | placing one field adds its target date to the keys, fills that date and field only if it was unset, and warns exactly when it was already set |
| SleepCalendar.PlaceField | convert_sleeplog.py:82-97 | one placement block of the loop (`setdefault`, set-if-unset, else warn) computes `Place` |
| SleepCalendar.BuildCalendar | convert_sleeplog.py:70-99 | the loop's calendar and warnings equal the fold `ScatterAll` over the episodes in order, with the wake-up placed before the bedtime |
| SleepCalendar.UntargetedFieldUnset | convert_sleeplog.py:82-97 | a (date, field) pair that no episode targets stays unset; in particular a NaT contributes nothing |
| SleepCalendar.FieldStable | convert_sleeplog.py:85-88 | once a date's field is set, later episodes never change it |
| SleepCalendar.FirstWriteWins | convert_sleeplog.py:84-97 | the value of a (date, field) pair is the clock time of the first episode that targets it |
| SleepCalendar.CalendarKeys | convert_sleeplog.py:82-93 | the keys are exactly the attributed dates of the present wake-up and bedtime timestamps |
| SleepCalendar.EntriesNonEmpty | convert_sleeplog.py:84-95 | every date in the calendar has at least one of its two fields set |
| SleepCalendar.SetIffHit | convert_sleeplog.py:82-97 | a (date, field) pair is set if and only if at least one episode targets it |
| SleepCalendar.StepWarningCount | convert_sleeplog.py:85-97 | one iteration adds a warning for a (date, field) pair exactly when it targets that pair and the pair is already set |
| SleepCalendar.PrefixWarningCount | convert_sleeplog.py:84-97 | episode n adds a warning for a (date, field) pair exactly when it targets that pair and an earlier episode already did |
| SleepCalendar.RepeatsWarned | convert_sleeplog.py:84-97 | after any number of episodes, a (date, field) pair targeted k > 0 times has exactly k - 1 duplicate warnings, and an untargeted pair has none |
| SleepCalendar.DuplicateExample | convert_sleeplog.py:84-97 | bedtimes at 2025-01-01 22:00 and 2025-01-02 01:30 both go to 2025-01-01: 22:00:00 is kept and one warning is recorded |
| WideRow.KeptDates | convert_sleeplog.py:123-129 | the dates a row lists are strictly ascending and are exactly the calendar keys within the bounds; an absent or empty bound does not filter |
| WideRow.WideHeader | convert_sleeplog.py:131-136 | a header for n dates has length 1 + 3n and starts with `ID` |
| WideRow.WideValues | convert_sleeplog.py:131-141 | a value row for n dates has length 1 + 3n and starts with the segment ID |
| WideRow.DatesInRange | convert_sleeplog.py:123-129 | sorting and then filtering gives exactly `KeptDates` |
| WideRow.BuildWideRow | convert_sleeplog.py:106-143 | the loop's header and values are `WideHeader` and `WideValues` over the kept dates, so they have the same length 1 + 3n |
| WideRow.WideHeaderAt | convert_sleeplog.py:136 | the k-th triple of the header is `D{k+1}_date`, `D{k+1}_wakeup`, `D{k+1}_inbed` |
| WideRow.LabelInjective | convert_sleeplog.py:136 | a label `D{i}_{suffix}` determines both its index and its suffix |
| WideRow.HeaderColumnsDistinct | convert_sleeplog.py:131-136 | the column names of a row's header are pairwise distinct |
| WideRow.WideValuesAt | convert_sleeplog.py:137-141 | the k-th triple of the values is the k-th date, then its wake-up and its bedtime, or `""` when unset |
| WideRow.EmittedDates | convert_sleeplog.py:123-141 | the row lists exactly the in-range calendar dates in ascending order, each followed by its own entry |
| WideRow.EmptyRange | convert_sleeplog.py:131-143 | a range that matches no date yields `["ID"]` and `[segment_id]` |
| WideRow.SingleDateInRange | convert_sleeplog.py:123-129 | when exactly one calendar date is in range, the row lists that date alone |
| WideRow.RangeExample | convert_sleeplog.py:123-129 | for a calendar keyed by 2025-01-01, 2025-01-02 and 2025-01-05, only 2025-01-02 is kept by the range 2025-01-02 to 2025-01-04 |
| Conversion.DropUnusable | convert_sleeplog.py:169 | `dropna(how="all")` keeps a row exactly when at least one of `Out_Bed` and `In_Bed` is present, and never adds rows; the three lemmas below make it the in-order filter |
| Conversion.DropUnusableConcat | convert_sleeplog.py:169 | filtering distributes over concatenation, so kept rows stay in their original order, repeats included |
| Conversion.DropUnusableSingle | convert_sleeplog.py:169 | a single row is kept exactly when `Out_Bed` or `In_Bed` is present |
| Conversion.DropUnusableKeepsAll | convert_sleeplog.py:169 | a diary whose rows are all usable passes through unchanged |
| Conversion.PadTo | convert_sleeplog.py:192-194 | a padded row has length max(len, width), keeps the original cells as a prefix, and has only `""` after them |
| Conversion.MaxWidth | convert_sleeplog.py:179-189 | `max_cols` bounds every row's length and is attained by some row, or is 0 when there are no segments |
| Conversion.FirstLongest | convert_sleeplog.py:197-201 | `max(..., key=len)` picks a longest element, and every element before it is strictly shorter |
| Conversion.FirstLongestSnoc | convert_sleeplog.py:197-201 | a new candidate replaces the current pick only when it is strictly longer |
| Conversion.FirstLongestByLength | convert_sleeplog.py:197-201 | which element `max(..., key=len)` picks depends only on the lengths |
| Conversion.Assembled | convert_sleeplog.py:178-203 | the returned table has one row per segment, each padded to the widest row's width |
| Conversion.HeaderMatchesValues | convert_sleeplog.py:131-143 | a segment's header and its value row have the same length |
| Conversion.HeaderOfWidestRow | convert_sleeplog.py:189-203 | the table header is the full header of the first segment whose row is widest, and it is already `max_cols` long |
| Conversion.Rectangular | convert_sleeplog.py:178-205 | one row per segment, in order; each row is as wide as the header, starts with its segment ID, keeps its cells as a prefix and ends in `""` padding |
| Conversion.PadAllIdempotent | convert_sleeplog.py:191-194 | padding rows twice to the same width is padding them once |
| Conversion.PaddingSettles | convert_sleeplog.py:189-194 | after padding, the widest width is unchanged, and padding again is a no-op |
| Conversion.PaddingExample | convert_sleeplog.py:178-203 | rows of lengths 4, 7 and 4 all become 7 long, the 7-long row supplies the header, and re-padding changes nothing |
| Conversion.PadRow | convert_sleeplog.py:193-194 | the `while`/`append("")` loop computes `PadTo` |
| Conversion.PadRows | convert_sleeplog.py:191-194 | the padding loop pads every row to `max_cols` |
| Conversion.BuildRows | convert_sleeplog.py:178-189 | the first pass collects each segment's value row in order, and `max_cols` is their widest length |
| Conversion.LongestHeader | convert_sleeplog.py:196-201 | the second pass returns the header of the first segment whose header is longest |
| Conversion.Convert | convert_sleeplog.py:169-203 | a diary with no usable row fails with `NoUsableRows`; otherwise the calendar is built from the usable rows in order; with no segments the result is `NoSegments` carrying that calendar's duplicate warnings, and otherwise it is the assembled table together with those warnings |

## Left out

- Reading the CSV and `pd.to_datetime(..., errors="coerce")` (convert_sleeplog.py:173-174). The model takes each cell as already parsed: `Missing` for an empty cell, `Given(None)` for a cell that does not parse (NaT), and `Given(Some(t))` otherwise.
- `convert_sleepdiary_to_advanced`, the file-based variant: path handling, `mkdir`, `to_csv`, JSON segment loading and its logging. Its row-building and padding repeat the in-memory code that is modelled here.
- The argparse command line, the logger configuration (the model returns warnings instead of logging them), and the final `pd.DataFrame(...)` construction (the model returns header and rows).
- `app.py`, the Streamlit front end, is not part of this model.
- Timestamps are limited to whole years 1678 to 2261, the years that fit entirely in the nanosecond range of a pandas `Timestamp`. Sub-second parts are not modelled, since `fmt_time` drops them.
- Dates.PrevDay: requires a year of at least 2, because the day before 0001-01-01 does not exist. Every timestamp in the model satisfies this.
- The noon cutoff is any integer. The program's default of 12 is `Dates.DefaultNoonCutoff`.
- Conversion.PadRows: the program appends to the row lists in place. The model replaces each row by its padded value, so it does not capture aliasing of those lists.
- Conversion.Convert: segment IDs are taken as given, because the in-memory conversion does not call `sanitise_id` on them.
- Conversion.Convert: a segment's `start_date`/`end_date` is `None` both for a missing key and for `null`. The program treats these two cases identically.
