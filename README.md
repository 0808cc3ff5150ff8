# PolarsCaster, modelled in Dafny

This project models the core of `PolarsCaster` from `polarity/caster.py`, which
casts the rows of Polars data frames to the types a Pydantic model declares and
reconciles a new table against a stored one. It covers:

- the two pattern tables;
- `attempt_cast`, the per-value conversion to `int`, `float`, `str`, `bool`,
  `date` and `datetime`;
- `parse_date` and `parse_datetime`, which call each other;
- `_get_polars_schema`, the column type each field descriptor maps to;
- `cast_row` and `cast_dataframe`;
- `split_dataframe`, which sorts the new table's rows into inserts, unchanged
  rows and updates.

Modules, one file each:

| module | file | what it holds |
|---|---|---|
| `Wrappers` | wrappers.dfy | `Option`, `Result`, and `Outcome` (a value, or `Diverges` for a `RecursionError`) |
| `Text` | text.dfy | Python string helpers: `strip`, `lower`, `split`, `int()` and `float()` on decimal text, `str()` of numbers |
| `Calendar` | calendar.dfy | Gregorian dates and datetimes; `date(y, m, d)` validity |
| `Patterns` | patterns.dfy | the anchored regular expressions of the tables, `strptime` on their captures, the tables themselves, `fromisoformat` |
| `Temporal` | temporal.dfy | the stages of `parse_date` and `parse_datetime`, their mutual recursion and its closed form |
| `TemporalText` | temporal.dfy | round trips: the text `str()` and `isoformat()` write for a date or datetime parses back to it |
| `Regional` | regional.dfy | families of text: slash dates `a/b/yyyy` and `a/b/yy` (month-first before day-first), the twelve-hour stamp, text no stage reads, and a space-separated stamp with a trailing `Z` |
| `Values` | values.dfy | cell values and `isinstance` |
| `Coercion` | coercion.dfy | `attempt_cast` and its properties |
| `Casting` | casting.dfy | field descriptors, `_get_polars_schema`, `cast_row` and `cast_dataframe` |
| `Reconcile` | reconcile.dfy | `split_dataframe` |

Modelling choices:

- **Recursion between the parsers.** When the text is not a date in any form
  they know (for example `"abc"`), `parse_date` calls `parse_datetime`, which
  calls `parse_date` again. The two go on until Python raises `RecursionError`.
  `attempt_cast` catches only `ValueError`, `TypeError` and `OverflowError`, so
  that error reaches the caller of `cast_row`, `cast_dataframe` and
  `split_dataframe`.
  - The model gives each call a depth (`ParseDateAt`, `ParseDateTimeAt`) and an
    `Outcome` result.
  - It proves that any depth of at least one gives the closed forms `ParseDate`
    and `ParseDateTime`, so the exact stack limit does not matter.
  - It carries `Diverges` through every caller.
- **Date-only text and the second read.** Lines 286-313 of the source are never
  reached. Any text they could read has already come back from the earlier
  `parse_date` call at line 282. That call either returns a date or never
  returns.
- **Pydantic.** Pydantic's validation and `model_dump` are one uninterpreted
  function, `Model.validate`. Its result is `None` where Pydantic raises
  `ValidationError`. The JSON-schema descriptors are given as data (`Field`).
- **Row and table casting.** The row and table functions take the per-value cast
  as a parameter, and their properties hold for any cast. The methods
  `CastRow`, `CastFrame`, `CastDataframe` and `SplitDataframe` use
  `AttemptCast`.

## Model

| member | source | states |
|---|---|---|
| Calendar.MakeDate | polarity/caster.py:159-160 | `date(y, m, d)` succeeds exactly for a valid Gregorian date (year 1..9999, month 1..12, day within the month), and then it holds those fields |
| Calendar.Midnight | polarity/caster.py:229-230 | `datetime.combine(d, datetime.min.time())` is the same day at 00:00:00, naive |
| Calendar.LeapDay | polarity/caster.py:182-190 | the 29th of February exists exactly in leap years, so the validity rule the manual fallback relies on is the Gregorian one |
| Patterns.Scan | polarity/caster.py:168-174 | the pattern loop returns the result of some entry that parses, with every entry before it failing; it returns none exactly when no entry parses |
| Patterns.ScanFirstHit | polarity/caster.py:264-279 | the first entry of a table that parses decides the loop's result |
| Patterns.DatePatternsDelimited | polarity/caster.py:13-27 | in every date pattern a digit run is followed by a non-digit element or the end, so matching a digit run whole is exact |
| Patterns.DateTimePatternsDelimited | polarity/caster.py:30-43 | the same for every datetime pattern |
| Patterns.ClockHour | polarity/caster.py:39 | `%I ... %p`: the 24-hour hour agrees with the 12-hour reading modulo 12 and is 12 or more exactly in the afternoon (12 AM is 0) |
| Patterns.Build | polarity/caster.py:171 | the datetime `strptime` builds carries the parsed date, minute and second; its hour is the one read, or on a 12-hour clock the 24-hour hour of the reading and the meridiem; it is aware exactly when the format read an offset, which is then the signed minutes of the offset read |
| Patterns.TwoDigitYearStrptime | polarity/caster.py:20-25 | `%m/%d/%y` and `%d/%m/%y` read a two-digit year `n` as the year of 1969..2068 ending in `n` (2000 + `n` up to 68, 1900 + `n` from 69) and give that date at midnight exactly when it is valid |
| Patterns.TwelveHourStrptime | polarity/caster.py:39 | `%m/%d/%Y %I:%M:%S %p` succeeds exactly when the hour is 1..12 and the resulting naive datetime is valid; its hour is the 24-hour hour of the reading and the meridiem, minute and second as read |
| Temporal.DateFromParts | polarity/caster.py:159-160 | a date built from three text parts has exactly the numbers `int()` reads from them |
| Temporal.Unparseable | polarity/caster.py:214-217 | text that neither parser's own stages accept does not come back at any recursion depth |
| Temporal.ParseCollapse | polarity/caster.py:136-284 | at any depth of at least one, `parse_date` returns its own stages' date, else the date of `parse_datetime`'s stages, else does not return; `parse_datetime` returns its own stages' datetime, else that date at midnight, else does not return |
| Temporal.ParseMatchesRecursion | polarity/caster.py:281-284 | the mutual recursion at Python's default limit equals the closed forms `ParseDate` and `ParseDateTime` |
| Temporal.SameDomain | polarity/caster.py:214-217 | `parse_date` fails to return on exactly the texts `parse_datetime` fails to return on |
| Temporal.FastPathDecides | polarity/caster.py:232-261 | when the `try` block of `parse_datetime` returns a datetime, that is the answer |
| TemporalText.IsoDateOfText | polarity/caster.py:161-163 | `date.fromisoformat` reads back the `YYYY-MM-DD` text of any date |
| TemporalText.DateTextRoundTrip | polarity/caster.py:147-163 | `parse_date` reads back `str(d)` as `d` for every date |
| TemporalText.DateTextAtMidnight | polarity/caster.py:281-284 | `parse_datetime` reads the text of a date as that date at midnight |
| TemporalText.IsoTextRoundTrip | polarity/caster.py:232-261 | `parse_datetime` reads back `YYYY-MM-DD?HH:MM:SS[+HH:MM]`, with `T` or a space, as the same datetime |
| TemporalText.DateTimeTextRoundTrip | polarity/caster.py:254-259 | `parse_datetime` reads back `str(t)` as `t` for every datetime |
| TemporalText.ZuluReplaced | polarity/caster.py:236-237 | replacing the trailing `Z` of a UTC stamp gives the stamp with offset `+00:00` |
| TemporalText.ZuluTextRoundTrip | polarity/caster.py:236-237 | a stamp with a trailing `Z` is read with offset zero |
| TemporalText.CompactIsoRejected | polarity/caster.py:238-241 | `fromisoformat` (up to Python 3.10) rejects an offset written `+HHMM`, so the rewrite path is taken |
| TemporalText.FixCompactOffsetOf | polarity/caster.py:243-247 | text ending in a sign and four digits matches the search, and the rewrite inserts the colon between hours and minutes |
| TemporalText.CompactOffsetRoundTrip | polarity/caster.py:238-251 | a stamp whose offset is written `+HHMM` or `-HHMM` is read with that offset |
| Regional.DateEntriesMiss | polarity/caster.py:13-27 | on a slash date `a/b/yyyy` every date pattern other than the two four-digit slash entries fails |
| Regional.MonthFirstEntry | polarity/caster.py:18 | the `%m/%d/%Y` entry reads `a/b/yyyy` as month `a`, day `b` when that date is valid |
| Regional.DayFirstEntry | polarity/caster.py:23 | the `%d/%m/%Y` entry reads `a/b/yyyy` as day `a`, month `b` when that date is valid |
| Regional.DateScanOnSlash | polarity/caster.py:168-174 | the date table reads `a/b/yyyy` month-first, and day-first only when month-first is not a valid date |
| Regional.ManualOnSlash | polarity/caster.py:177-192 | the manual split fallback tries the same two orders, month-first first |
| Regional.DateTimeEntriesOnSlash | polarity/caster.py:30-43 | no datetime pattern accepts a slash date without a time |
| Regional.SlashDate | polarity/caster.py:136-219 | `parse_date` on `a/b/yyyy` is month-first if valid, else day-first, else it does not return; `parse_datetime` gives the same date at midnight |
| Regional.MonthFirstExample | polarity/caster.py:18 | `"02/01/2022"` is read as 1 February 2022 |
| Regional.DayFirstExample | polarity/caster.py:23 | `"13/01/2022"` is read as 13 January 2022 |
| Regional.SlashMidnightExample | polarity/caster.py:281-284 | `parse_datetime("01/02/2022")` is 2 January 2022 at midnight |
| Regional.NoDigitsDiverge | polarity/caster.py:214-217 | text that opens with no digit and has no `T`, `/` or `-` sends both parsers into unbounded recursion |
| Regional.AbcDiverges | polarity/caster.py:281-284 | `"abc"` sends both parsers into unbounded recursion |
| Regional.OtherSeparatorDiverges | polarity/caster.py:136-284 | a datetime written `YYYY-MM-DD`, then a separator that is not `T`, a space or a digit, then `HH:MM:SS` is read by no stage of either parser, so both recurse without end |
| Regional.LowercaseTDiverges | polarity/caster.py:281-284 | `"2022-01-01t10:30:00"` sends both parsers into unbounded recursion |
| Regional.SpacedZuluStages | polarity/caster.py:147-165 | on `YYYY-MM-DD HH:MM:SSZ`, no stage of `parse_datetime` reads the text, and `parse_date`'s space branch gives `date.fromisoformat` of the part before the space; when that is a date, `parse_datetime` gives it at midnight and `parse_date` gives it |
| Regional.SpacedZuluAtMidnight | polarity/caster.py:232-284 | for every datetime, its date, a space, its clock and a trailing `Z` come back from `parse_datetime` as midnight of that date, naive, and from `parse_date` as that date |
| Regional.IsoDateOfRuns | polarity/caster.py:151-156 | `date.fromisoformat` reads `y-m-d` written with four, two and two digits as the date of those numbers, when that date is valid |
| Regional.SpacedZuluOfRuns | polarity/caster.py:232-284 | `y-m-d h:mi:secZ`, written with numerals of a valid date, comes back from `parse_datetime` as that date at midnight |
| Regional.SpacedZuluExample | polarity/caster.py:281-284 | `"2022-01-01 10:30:00Z"` is midnight on 1 January 2022, naive |
| Regional.ShortDateEntriesMiss | polarity/caster.py:13-27 | on `a/b/yy` every date pattern other than the two two-digit slash entries fails |
| Regional.MonthFirstShortEntry | polarity/caster.py:20 | the `%m/%d/%y` entry reads `a/b/yy` as month `a`, day `b`, in the year of 1969..2068 that ends in `yy` |
| Regional.DayFirstShortEntry | polarity/caster.py:25 | the `%d/%m/%y` entry reads `a/b/yy` as day `a`, month `b`, in that same year |
| Regional.DateScanOnShortSlash | polarity/caster.py:168-174 | the date table reads `a/b/yy` month-first, and day-first only when month-first is not a valid date |
| Regional.ManualOnShortSlash | polarity/caster.py:177-212 | neither manual split fallback accepts `a/b/yy`, which has no four-digit part |
| Regional.DateTimeEntriesOnShortSlash | polarity/caster.py:30-43 | no datetime pattern accepts `a/b/yy` |
| Regional.ShortSlashDate | polarity/caster.py:136-219 | `parse_date` on `a/b/yy` is month-first if valid, else day-first, in the year of 1969..2068 that ends in `yy`, else it does not return; `parse_datetime` gives the same date at midnight |
| Regional.LastCenturyExample | polarity/caster.py:20 | `"01/02/69"` is read as 2 January 1969 |
| Regional.ThisCenturyExample | polarity/caster.py:20 | `"01/02/68"` is read as 2 January 2068 |
| Regional.TwelveHourEntry | polarity/caster.py:39 | the `%m/%d/%Y %I:%M:%S %p` entry reads `a/b/yyyy h:mm:ss AM` or `PM` as month `a`, day `b`, the 24-hour hour of `h` and the meridiem, minute and second as written, exactly when the hour is 1..12 and that datetime is valid |
| Regional.TwelveHourParse | polarity/caster.py:232-279 | `parse_datetime` on `a/b/yyyy h:mm:ss AM` or `PM` returns that entry's datetime whenever the reading is valid, since the ISO attempts and every earlier entry fail |
| Regional.AfternoonExample | polarity/caster.py:39 | `"01/02/2022 03:45:00 PM"` is read as 2 January 2022 at 15:45:00, naive |
| Coercion.AttemptCast | polarity/caster.py:80-134 | `None` stays `None`; a value already of the target type (a `bool` is an `int`, a `datetime` a `date`) is returned unchanged; any result is `None` or of the target type; only text cast to `date` or `datetime` can fail to return |
| Coercion.CastIdempotent | polarity/caster.py:82-86 | casting the result again with the same target changes nothing |
| Coercion.IntCastExact | polarity/caster.py:89-102 | a text or float becomes the `int` `n` exactly when `float()` of the text or the float itself is `n` |
| Coercion.IntTextCast | polarity/caster.py:90-95 | the text `str(i)` of any integer casts back to `i` |
| Coercion.FractionNotInt | polarity/caster.py:92-95 | `w.f` with a non-zero fractional digit casts to `None` as an `int` |
| Coercion.IntOfText | tests/test_validator.py:39-40 | `"123"` and `"123.0"` cast to 123 |
| Coercion.IntOfOtherText | tests/test_validator.py:41-42 | `"123.55"` and `"abc"` cast to `None` as an `int` |
| Coercion.IntOfFloat | tests/test_validator.py:43-44 | `123.0` casts to 123 and `123.55` to `None` |
| Coercion.FloatCast | polarity/caster.py:104-105 | a non-float becomes the float `x` exactly when it is text `float()` reads as `x`, an `int` equal to `x`, or a `bool` worth `x` |
| Coercion.FloatOfText | tests/test_validator.py:48-50 | `"123.45"` and `"123"` become floats and `"abc"` becomes `None` |
| Coercion.StrOfValues | tests/test_validator.py:55-60 | `str()` renders 123, `"123.0"`, 123.0, `False` and `True` as the tests state |
| Coercion.IntStrRoundTrip | polarity/caster.py:89-108 | an `int` rendered by `str` casts back to the same `int` |
| Coercion.BoolStrRoundTrip | polarity/caster.py:107-117 | a `bool` rendered by `str` casts back to the same `bool` |
| Coercion.DateStrRoundTrip | polarity/caster.py:107-125 | a `date` rendered by `str` casts back to the same `date` |
| Coercion.DateTimeStrRoundTrip | polarity/caster.py:107-128 | a `datetime` rendered by `str` casts back to the same `datetime` |
| Coercion.BoolOfText | polarity/caster.py:111-117 | text is `False` exactly when its stripped lower-case form is one of the false words, and `True` otherwise, including for the true words |
| Coercion.BoolOfNonText | polarity/caster.py:118-122 | an `int` is `True` exactly when nonzero, a finite float likewise, NaN gives `None`, and a date is `True` |
| Coercion.BoolOfTrueText | tests/test_validator.py:63-71 | `"True"`, `"yes"`, `"1"` and `"abc"` are `True` |
| Coercion.BoolOfFalseText | tests/test_validator.py:65-72 | `"false"`, `"no"`, `"0"` and `""` are `False` |
| Coercion.DateOfText | polarity/caster.py:124-125 | text `parse_date` reads casts to that date |
| Coercion.DateTimeOfText | polarity/caster.py:127-128 | text `parse_datetime` reads casts to that datetime |
| Coercion.TemporalOfValues | polarity/caster.py:124-230 | a date becomes a `datetime` at midnight; a `datetime` already is a `date`; a non-text, non-date value becomes `None` |
| Coercion.CastDiverges | polarity/caster.py:124-128 | `attempt_cast` fails to return exactly on text whose parser fails to return |
| Coercion.UnparseableTextDiverges | polarity/caster.py:124-134 | text no parser stage reads does not come back as `None`: the `RecursionError` is not caught |
| Casting.FirstNonNull | polarity/caster.py:56-60 | the first `anyOf` entry whose type is not `"null"`; none exactly when every entry is `"null"` |
| Casting.Resolve | polarity/caster.py:330-336 | the descriptor changes only when its type is literally `"null"` and it has `anyOf`, and then to the first non-null entry |
| Casting.ColumnMatchesCast | polarity/caster.py:62-76 | a field's Polars type is the type of the values `cast_row` puts in it, and a field `cast_row` leaves alone is `Utf8` |
| Casting.PolarsSchema | polarity/caster.py:45-78 | the schema has exactly the fields' names as keys |
| Casting.PolarsSchemaType | polarity/caster.py:50-76 | each column's type is that of the last field of its name |
| Casting.AttemptCastIdempotent | polarity/caster.py:82-86 | `attempt_cast` is an idempotent cast, so the row properties below apply to it |
| Casting.CastField | polarity/caster.py:322-351 | casting one field keeps the row's columns and changes no other column |
| Casting.CastFields | polarity/caster.py:322-351 | casting the fields keeps the row's set of columns |
| Casting.CastFieldsUntouched | polarity/caster.py:322-324 | a column no field names keeps its value |
| Casting.CastFieldsCells | polarity/caster.py:338-351 | with distinct field names, each present field's final cell is what casting that one field of the original row gives, so the fields do not interfere |
| Casting.CastFieldsDone | polarity/caster.py:322-351 | the row cast returns exactly when each field's cast returns |
| Casting.CastFieldsDiverges | polarity/caster.py:322-351 | once a field's cast fails to return, so does the row's |
| Casting.CastFieldsIdempotent | polarity/caster.py:317-351 | with an idempotent cast, casting a cast row again gives the same row |
| Casting.CastRow | polarity/caster.py:317-357 | `cast_row` returns the validated row, raises with the processed row when validation fails, or does not return |
| Casting.Columns | polarity/caster.py:385 | a frame built from rows has exactly the columns some row has |
| Casting.RowsFrame | polarity/caster.py:385-392 | the frame holds the rows, and each column's type is the schema's when the schema has the column, otherwise inferred |
| Casting.CastTable | polarity/caster.py:366-394 | an empty table, or one whose every row fails validation, gives the empty frame with the schema's types |
| Casting.CastRowsAppend | polarity/caster.py:373-379 | casting a table is casting its rows one by one, in order: the kept rows are the validated rows in their original order, and a failing row is dropped without affecting the others |
| Casting.CastRowsOne | polarity/caster.py:373-379 | a one-row table keeps exactly what that row's cast keeps: its validated form, or nothing when validation fails |
| Casting.CastRowsDiverges | polarity/caster.py:373-379 | a row whose cast fails to return stops the whole table |
| Casting.CastFrame | polarity/caster.py:366-394 | the loop over the rows computes the table cast |
| Casting.CastDataframe | polarity/caster.py:359-394 | `cast_dataframe` reports an unknown schema name and otherwise casts the table |
| Reconcile.MissingKey | polarity/caster.py:417-422 | no error exactly when every key column is in both tables; otherwise the reported key is the first in `pks` missing from either table (every earlier key is in both), reported against the new table exactly when the new table lacks it, else against the stored one |
| Reconcile.NullCount | polarity/caster.py:426-427 | the count of null cells is zero exactly when no row has a null there |
| Reconcile.FirstNull | polarity/caster.py:424-432 | the position of the first key column with a null in either table: every earlier key column is null-free in both, and the one there (if any) has a null in one of them |
| Reconcile.NullKey | polarity/caster.py:424-432 | no error exactly when no key column holds a null in either table; otherwise the reported key is the first in `pks` with a null (every earlier key is null-free in both), reported against the new table exactly when the new table has a null there, with a positive count that is that table's null count for the column |
| Reconcile.Absent | polarity/caster.py:453-457 | none exactly when every key column is in the cast table; otherwise a missing key column |
| Reconcile.FieldsEqualFacts | polarity/caster.py:471-495 | the comparison is symmetric; null equals only null; dates and datetimes compare by calendar date; every value but NaN equals itself |
| Reconcile.DateTimeEqualsItsDate | polarity/caster.py:478-491 | a datetime equals its own date, and any datetime on the same day |
| Reconcile.RowsIdentical | polarity/caster.py:467-495 | the loop with early `break` decides that every shared non-key column compares equal |
| Reconcile.FirstWith | polarity/caster.py:464-465 | the first row with the key, found exactly when some row has it |
| Reconcile.Matched | polarity/caster.py:457 | `ids_in_both` holds exactly the non-null keys of cast new rows that are among the stored keys |
| Reconcile.MatchedFound | polarity/caster.py:463-465 | every key in `ids_in_both` has a row in each cast table, so `to_dicts()[0]` always finds one |
| Reconcile.Classed | polarity/caster.py:459-501 | `equals_ids` and `update_ids` hold exactly the matched keys whose rows are identical, and those whose rows differ |
| Reconcile.Select | polarity/caster.py:454 | the filtered rows are exactly the table's rows whose key is (or is not) in the list |
| Reconcile.SelectIndices | polarity/caster.py:503-505 | the rows a filter keeps come from increasing positions of the table |
| Reconcile.SelectSubsequence | polarity/caster.py:503-505 | a filter keeps rows in their original order |
| Reconcile.Compare | polarity/caster.py:452-507 | the comparison loop over `ids_in_both` computes the split of the cast tables |
| Reconcile.SplitDataframe | polarity/caster.py:396-507 | `split_dataframe`: the checks in order, the empty-table answers, then the split |
| Reconcile.ClassifyMembership | polarity/caster.py:452-505 | a new row is inserted exactly when its key is not among the cast stored keys; it is equal or updated exactly when its key is non-null and in both cast tables, by whether the first rows with that key are identical |
| Reconcile.ClassifyOrdered | polarity/caster.py:454-505 | the three outputs are order-preserving subsequences of the original new table |
| Reconcile.ClassifyDisjoint | polarity/caster.py:452-505 | no key lands in two outputs |
| Reconcile.ClassifyStoredOnly | polarity/caster.py:452-505 | only rows of the new table appear in the outputs, so a row only the stored table has appears nowhere |
| Reconcile.ClassifyDropsFailed | polarity/caster.py:448-457 | a new row whose key is stored but which no cast new row carries appears in no output |
| Reconcile.SplitChecked | polarity/caster.py:409-432 | a split succeeds only with a known schema, a non-empty key list, and every key column present and null-free in both original tables |
| Reconcile.SplitPartitions | polarity/caster.py:432-505 | in every branch a successful split gives three order-preserving subsequences of the new rows, disjoint by the first key |

## Left out

- Polars `DataFrame` machinery is not modelled: construction, `infer_schema_length`, `clone` and `to_dicts`. A frame is its column types and its rows, and a row is a map from column to value.
- Casting.RowsFrame: the final `result_df.cast(columns_to_cast)` is not modelled. The frame records the schema's column types, but its values stay as Pydantic returned them. Polars' own dtype conversion, and its errors on values it cannot convert, are not modelled.
- Pydantic is left out: `model_json_schema`, validation and `model_dump` are `Model.validate` (uninterpreted) and the `Field` descriptors, and the `ValidationError` message text is dropped.
- Text.PyFloat: `float()` reads only plain decimal literals with an optional sign and surrounding spaces. Exponents, `inf`, `nan` and underscores are not read. Floats are exact reals, so the precision loss of `float` and of `int(float_val)` for large numbers is not modelled.
- Text.RealText: `str()` of a float is modelled as positional decimal notation. Python's shortest round-trip rendering and exponent notation are not.
- Coercion.AttemptCast: a value of a type the model does not represent (`Other`) casts to `None` as an `int` or a `float`. Python's `int()` and `float()` accept some such types, such as `bytes` and `Decimal`.
- Reconcile.Matched: a null key in the cast new table is never matched against the stored keys. Polars' handling of nulls inside `is_in` is not modelled.
- Reconcile.Select: Polars' `is_in` and `==` compare typed column values. The model compares cell values as they are. A key that differs only in type between the tables, such as `1` and `"1"`, therefore never matches, and Polars' errors on mismatched dtypes are not modelled.
- Reconcile.PyEquals: values of an unmodelled type (`Other`) are equal when their text and truth value are equal. Python's comparison of aware datetimes across time zones is never reached, because dates are compared by calendar day.
- `OverflowError` from `date(...)` on integer parts too large for a C integer is not modelled. The model treats such parts like any other invalid date.
- The `print(e)` diagnostic of `cast_dataframe` and the `print` calls of the tests are output only.
- Time-zone arithmetic is left out: offsets are carried as minutes and never converted. The `strptime` grammar is modelled only for the table's formats.
- Patterns.IsoDateTime: `fromisoformat` is modelled as in Python 3.10 and earlier, for `YYYY-MM-DD`, optionally followed by `T` or a space, `HH:MM:SS`, and `±HH:MM` with minutes 0..59; a trailing `Z` is rejected. Every Python since 3.7 also accepts `HH` or `HH:MM` alone, fractional seconds (`.fff`, `.ffffff`), `±HH:MM:SS` offsets and any single character as the separator. Up to Python 3.10 it also accepts offset minutes of 60 or more while the whole offset stays under 24 hours. The model rejects all of these, and the outcome depends on the separator, as the next two lines say.
- Patterns.IsoDateTime, with a `T` or a space as the separator: `parse_datetime` falls back to `parse_date`, which reads the part before the separator as a date. `"2022-01-01T10:30"` and `"2022-01-01T10:30:00+05:75"` come back as midnight on the 1st of January, where Python gives 10:30.
- Patterns.IsoDateTime, with any other separator: no stage reads the text, so both parsers recurse until `RecursionError` where Python returns a value. `Regional.OtherSeparatorDiverges` states this for every separator that is not a digit, and `Regional.LowercaseTDiverges` states it for `"2022-01-01t10:30:00"`. A digit as the separator fails the same way.
- Calendar.DateTime has no microsecond field. A datetime with microseconds, and its `str()` with the fraction (the `str` branch, polarity/caster.py:107-108), cannot be represented.
- TemporalText.CompactIsoRejected: states `fromisoformat` as it is up to Python 3.10. From Python 3.11 it accepts `+HHMM` directly. For text with a `T`, `parse_datetime` then returns the same datetime without the colon fix; for text with a space it differs, as the next line says.
- Patterns.IsoDateTime, Regional.SpacedZuluAtMidnight: the whole model follows `fromisoformat` of Python 3.10 and earlier. From Python 3.11 `fromisoformat` also accepts a trailing `Z` and a `±HHMM` offset after either separator. Only text with a `T` has its `Z` replaced and its `±HHMM` fixed before `fromisoformat`, so text with a space differs between versions. On 3.11 and later, `"2022-01-01 10:30:00Z"` is 10:30 UTC and `"2022-01-01 10:30:00+0500"` is 10:30 at +05:00. Up to 3.10, and in the model, `parse_date` reads the part before the space and both come back as midnight on the 1st of January, naive. `Regional.SpacedZuluAtMidnight` states this for every stamp with a `Z`; the `+0500` case is not stated by a lemma.
- Text.Strip, Text.Lower, Text.PyInt, Patterns.Match: whitespace, letter case and digits are ASCII only, and `int()` reads no `_` separators. Python's `str.strip`, `str.lower`, `int()` and the regex `\d` also take Unicode whitespace, letters and digits, and `int("1_2")` is 12. So `attempt_cast("\u00a0no", bool)` is `True` in the model where Python gives `False`, and `parse_date("1_2/05/2022")` diverges in the model where Python's manual split returns 2022-12-05. Text holding non-ASCII digits differs in the same way.
- Regional.TwelveHourParse: states the result of `parse_datetime` only when the twelve-hour reading is a valid datetime. An invalid reading, such as hour 13 or minute 60, falls through to the later entries and to `parse_date`, and the model does not state where it ends.
- Lines 286-313 of polarity/caster.py (the manual datetime split) are not modelled, because no input reaches them.
