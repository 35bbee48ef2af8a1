# Jackcess complex columns and date functions in Dafny

This project models two parts of the Jackcess library, which reads and writes Microsoft Access databases.

**Complex-column store.** `ComplexColumnInfo` keeps the values of an Access *complex column* in a separate "flat" table:
- attachments, multi-value lists and version history are all stored this way;
- each flat row carries an auto-number primary key and a LONG foreign key that groups the rows belonging to one owning row.

The model covers the following:
- **Construction.** The flat columns are split against the type table, and the primary- and foreign-key columns are selected. Construction fails when either key column is missing.
- **Cursors.** The two index cursors are built lazily and then cached.
- **Reading.** A group is read through a scan of the foreign-key index.
- **Writing.** Every add, update and delete operation is modelled, including the batch forms, which run with no rollback.
- **Value identity.** `ComplexValueImpl` has a set-once id and a set-once foreign key, with `equals` and `hashCode`.

**Date functions.** The integer arithmetic of the expression-language date functions in `DefaultDateFunctions`:
- the interval codes (trimmed and matched ignoring case);
- weekday renumbering and its inverse, and quarters;
- `DateSerial`'s two-digit-year rule;
- `TimeSerial`'s normalisation of a total number of seconds;
- the week settings `doWeekOp` installs and restores;
- `DatePart`, the field and amount `DateAdd` passes to the calendar, and `DateDiff` with its year-folding loops and sign swap.

**Modules.**

| file | module | contents |
|---|---|---|
| `outcomes.dfy` | `Outcomes` | `Option`, `Result`, `Outcome` |
| `java_int.dfy` | `JavaInt` | Java `int` arithmetic: wrap-around, truncating division and remainder |
| `complex_types.dfy` | `ComplexTypes` | columns, cells, rows, the foreign-key handle, the faults |
| `reconciler.dfy` | `Reconciler` | `diffFlatColumns` and the key-column selection |
| `flat_table.dfy` | `FlatTables` | the flat table the store writes to: the rows by key, the scan order, the auto-number counter, the foreign-key groups |
| `complex_value.dfy` | `ComplexValues` | `ComplexValueImpl` |
| `complex_column_info.dfy` | `ComplexColumnInfos` | `ComplexColumnInfo` as a class over a `FlatTable` |
| `date_intervals.dfy` | `DateIntervals` | interval codes, `String.trim`, `equalsIgnoreCase` |
| `date_fields.dfy` | `DateFields` | weekday, quarter, two-digit year, first-week type, week-of-year year, the `doWeekOp` calendar |
| `time_serial.dfy` | `TimeSerials` | `TimeSerial` |
| `date_diff.dfy` | `DateDiffs` | `DateDiff`, `getDayDiff`, `getHourDiff`, `getMinuteDiff` |
| `date_part_add.dfy` | `DateParts` | `DatePart`, `DateAdd` |

**Java exceptions** are results. The `IOException` of a missing key column, the `IllegalArgumentException` of a missing row, the `ClassCastException` of an `AUTO_NUMBER` key cell, the `IllegalStateException` of a reset id and the `EvalException`s of the date functions are all returned as values: `Outcome`/`Result` with a `Fault` or `DateFault`.

**Loops** are methods with loop invariants, and each is proved against a recursive specification function. These are:
- the column split, the key selection and the raw-row copy;
- the batch add, update and delete;
- the group delete;
- `TimeSerial`'s do-while;
- the year folds of `DateDiff`.

**Calendar behaviour** is given as parameters (`CalendarRules`) rather than modelled: how many days a year has, which week of the year a date falls in, and how many weeks a year has.

## Model

| member | source | states |
|---|---|---|
| Reconciler.DiffFlatColumns | src/java/com/healthmarketscience/jackcess/complex/ComplexColumnInfo.java:302-323 | each flat column goes, in order, to the type columns when the type table has a column of its name and to the other columns otherwise |
| Reconciler.DiffFlatColumnsPartitions | src/java/com/healthmarketscience/jackcess/complex/ComplexColumnInfo.java:302-323 | the two lists together hold exactly the flat columns (as a multiset, lengths adding up); a column is a type column iff the type table has its name |
| Reconciler.SelectKeyColumns | src/java/com/healthmarketscience/jackcess/complex/ComplexColumnInfo.java:75-83 | the primary key is the last auto-number other column and the foreign key the last non-auto-number LONG one |
| Reconciler.LastWhereIsLast | src/java/com/healthmarketscience/jackcess/complex/ComplexColumnInfo.java:77-83 | the selection finds nothing iff no column qualifies; otherwise it picks a qualifying column after which none qualifies |
| Reconciler.SelectedKeysDiffer | src/java/com/healthmarketscience/jackcess/complex/ComplexColumnInfo.java:77-83 | when both are found, the primary key is auto-number, the foreign key is a non-auto-number LONG, and they are different columns of the other columns |
| ComplexColumnInfos.ComplexColumnInfo.Open | src/java/com/healthmarketscience/jackcess/complex/ComplexColumnInfo.java:58-92 | construction succeeds iff both key columns are found, and fails with the flat table's name and the type id otherwise; the fields hold the split columns and the selected keys, and no cursor exists yet |
| ComplexColumnInfos.ComplexColumnInfo.constructor | src/java/com/healthmarketscience/jackcess/complex/ComplexColumnInfo.java:62-91 | the fields are set from the arguments and both cursors are unset |
| ComplexColumnInfos.ComplexColumnInfo.BuildComplexValIdCursor | src/java/com/healthmarketscience/jackcess/complex/ComplexColumnInfo.java:134-138 | the foreign-key cursor is built over the foreign-key column, at most once; an existing cursor is kept |
| ComplexColumnInfos.ComplexColumnInfo.BuildPkCursor | src/java/com/healthmarketscience/jackcess/complex/ComplexColumnInfo.java:259-263 | the primary-key cursor is built over the primary-key column, at most once; an existing cursor is kept |
| ComplexColumnInfos.ComplexColumnInfo.GetRawValues | src/java/com/healthmarketscience/jackcess/complex/ComplexColumnInfo.java:143-159 | the rows of the group in scan order: each has the group's foreign key and is stored, every stored row of the group is there, and the list is empty iff the group is |
| ComplexColumnInfos.ComplexColumnInfo.CopyRows | src/java/com/healthmarketscience/jackcess/complex/ComplexColumnInfo.java:153-157 | the copy loop collects exactly the rows the scan yields, in order |
| ComplexColumnInfos.ComplexColumnInfo.CountValues | src/java/com/healthmarketscience/jackcess/complex/ComplexColumnInfo.java:118-122 | the count is the number of rows the scan yields, zero iff the group is empty |
| ComplexColumnInfos.ComplexColumnInfo.ToValues | src/java/com/healthmarketscience/jackcess/complex/ComplexColumnInfo.java:172-182 | one new value per raw row, in order, built from the row's key, the handle and the decoded content; no two are the same object |
| ComplexColumnInfos.ComplexColumnInfo.GetValues | src/java/com/healthmarketscience/jackcess/complex/ComplexColumnInfo.java:161-170 | one new value per row of the handle's group, in scan order, each with the row's key as id and the handle as foreign key |
| ComplexColumnInfos.ComplexColumnInfo.AsRow | src/java/com/healthmarketscience/jackcess/complex/ComplexColumnInfo.java:281-288 | the key cells hold the value's id and handle, or `AUTO_NUMBER` exactly when that is `INVALID_ID` |
| ComplexTypes.KeyCell | src/java/com/healthmarketscience/jackcess/complex/ComplexColumnInfo.java:283-286 | a key cell is `AUTO_NUMBER` iff the key is `INVALID_ID`, and holds the key otherwise |
| ComplexColumnInfos.ComplexColumnInfo.AddRawValue | src/java/com/healthmarketscience/jackcess/complex/ComplexColumnInfo.java:184-188 | the row is stored under a newly generated key, which is returned; nothing else changes |
| ComplexColumnInfos.ComplexColumnInfo.AddValue | src/java/com/healthmarketscience/jackcess/complex/ComplexColumnInfo.java:190-196 | the value's row is stored under a new key and the value takes that id; a value already bound faults and keeps its id after its row has been stored |
| ComplexColumnInfos.ComplexColumnInfo.AddValues | src/java/com/healthmarketscience/jackcess/complex/ComplexColumnInfo.java:198-202 | the batch binds the values it gets through to consecutive new keys; it stops at the first value already bound (before the call or by a repeat within the batch), whose row is stored too, and rolls nothing back; the faulting value and every later value it did not bind keep their ids; the table holds exactly the rows added under their keys |
| ComplexColumnInfos.PrefixBoundCause | src/java/com/healthmarketscience/jackcess/complex/ComplexColumnInfo.java:198-202 | a value in a batch can still be bound iff it held no id before the batch and does not repeat an earlier value of the batch |
| ComplexColumnInfos.InsertedSpec | src/java/com/healthmarketscience/jackcess/complex/ComplexColumnInfo.java:198-202 | a batch insert keeps every earlier row, stores the j-th row under the j-th new key and adds no other key |
| ComplexColumnInfos.ComplexColumnInfo.MoveToRow | src/java/com/healthmarketscience/jackcess/complex/ComplexColumnInfo.java:258-269 | the primary-key cursor exists afterwards; the call faults with the id iff no row has it (a null id included) |
| ComplexColumnInfos.ComplexColumnInfo.UpdateRow | src/java/com/healthmarketscience/jackcess/complex/ComplexColumnInfo.java:271-274 | the row with the id is overwritten, keeping its key; a missing row faults and the table is unchanged |
| ComplexColumnInfos.ComplexColumnInfo.DeleteRow | src/java/com/healthmarketscience/jackcess/complex/ComplexColumnInfo.java:276-279 | the row with the id leaves the table and the scan order; a missing row faults and the table is unchanged |
| ComplexColumnInfos.ComplexColumnInfo.UpdateRawValue | src/java/com/healthmarketscience/jackcess/complex/ComplexColumnInfo.java:204-208 | the row whose key the raw row carries is overwritten and the key returned; an `AUTO_NUMBER` key is a cast fault, and an absent or unknown key is a missing-row fault |
| ComplexColumnInfos.ComplexColumnInfo.UpdateValue | src/java/com/healthmarketscience/jackcess/complex/ComplexColumnInfo.java:210-214 | the row with the value's id is overwritten with the value's row and the id returned; an unknown id faults and the table is unchanged |
| ComplexColumnInfos.ComplexColumnInfo.UpdateValues | src/java/com/healthmarketscience/jackcess/complex/ComplexColumnInfo.java:216-220 | the table is the writes applied in order up to the first value with no row, where the batch faults, with no rollback |
| ComplexColumnInfos.UpdateSequenceReach | src/java/com/healthmarketscience/jackcess/complex/ComplexColumnInfo.java:216-220 | a batch update never adds or removes a row, and stops exactly at the first key with no row |
| ComplexColumnInfos.UpdateSequenceUntouched | src/java/com/healthmarketscience/jackcess/complex/ComplexColumnInfo.java:216-220 | a row the batch does not reach keeps its contents |
| ComplexColumnInfos.UpdateSequenceLastWrite | src/java/com/healthmarketscience/jackcess/complex/ComplexColumnInfo.java:216-220 | a row the batch writes holds the last write made to it |
| ComplexColumnInfos.ComplexColumnInfo.DeleteRawValue | src/java/com/healthmarketscience/jackcess/complex/ComplexColumnInfo.java:222-224 | the row whose key the raw row carries leaves the table and the scan order, and the auto-number counter is kept; an `AUTO_NUMBER` key is a cast fault, and an absent or unknown key is a missing-row fault |
| ComplexColumnInfos.ComplexColumnInfo.DeleteValue | src/java/com/healthmarketscience/jackcess/complex/ComplexColumnInfo.java:226-228 | the row with the value's id is removed and the value leaves its group; groups it is not in are unchanged and the auto-number counter is kept; an unknown id faults |
| ComplexColumnInfos.ComplexColumnInfo.DeleteValues | src/java/com/healthmarketscience/jackcess/complex/ComplexColumnInfo.java:230-234 | the ids are deleted in order up to the first with no row, where the batch faults, with no rollback; the auto-number counter is kept |
| ComplexColumnInfos.DeleteSequenceSpec | src/java/com/healthmarketscience/jackcess/complex/ComplexColumnInfo.java:230-234 | a batch delete removes exactly the ids it gets through; it completes iff every id has a row and none repeats; it stops at an id never stored or already deleted |
| ComplexColumnInfos.ComplexColumnInfo.DeleteAllValues | src/java/com/healthmarketscience/jackcess/complex/ComplexColumnInfo.java:236-250 | exactly the rows of the group are removed and the auto-number counter is kept: the group is empty afterwards and every other group is as it was |
| ComplexColumnInfos.ComplexColumnInfo.DeleteAllValuesFor | src/java/com/healthmarketscience/jackcess/complex/ComplexColumnInfo.java:252-256 | exactly the rows of the handle's group are removed: rows, scan order and counter as for `DeleteAllValues`, the group empty and every other group as it was |
| FlatTables.FlatTable.AddRow | src/java/com/healthmarketscience/jackcess/complex/ComplexColumnInfo.java:185-187 | a row is stored under the next auto-number key, which no row had, and appended to the scan order |
| FlatTables.FlatTable.FindRowByEntry | src/java/com/healthmarketscience/jackcess/complex/ComplexColumnInfo.java:265 | the primary-key lookup succeeds iff a row has the key |
| FlatTables.FlatTable.UpdateRow | src/java/com/healthmarketscience/jackcess/complex/ComplexColumnInfo.java:273 | the current row is overwritten, keeping its key |
| FlatTables.FlatTable.DeleteRow | src/java/com/healthmarketscience/jackcess/complex/ComplexColumnInfo.java:278 | the current row leaves the table and the scan order |
| FlatTables.FlatTable.DeleteRows | src/java/com/healthmarketscience/jackcess/complex/ComplexColumnInfo.java:240-243 | removing rows one by one through a scan removes exactly those keys |
| FlatTables.FlatTable.Entries | src/java/com/healthmarketscience/jackcess/complex/ComplexColumnInfo.java:140 | every row an entry scan yields has an integer key and the entry's foreign key |
| FlatTables.GroupIsExactlyTheGroup | src/java/com/healthmarketscience/jackcess/complex/ComplexColumnInfo.java:140 | a scan yields exactly the stored rows of the group, and is empty iff the group is |
| FlatTables.GroupAfterAppend | src/java/com/healthmarketscience/jackcess/complex/ComplexColumnInfo.java:186 | a new row is appended to its own group and to no other |
| FlatTables.GroupAfterDelete | src/java/com/healthmarketscience/jackcess/complex/ComplexColumnInfo.java:276-279 | deleting a row takes it out of its group and leaves every other group as it was |
| FlatTables.RemovingGroup | src/java/com/healthmarketscience/jackcess/complex/ComplexColumnInfo.java:236-250 | removing the keys of a group empties that group and leaves the others as they were |
| ComplexValues.ComplexValueImpl.SetId | src/java/com/healthmarketscience/jackcess/complex/ComplexColumnInfo.java:346-351 | the id can be set only while it is `INVALID_ID`; afterwards the call faults and the id is kept |
| ComplexValues.ComplexValueImpl.SetComplexValueForeignKey | src/java/com/healthmarketscience/jackcess/complex/ComplexColumnInfo.java:357-363 | the handle can be set only while it is the unset handle; afterwards the call faults and the handle is kept |
| ComplexValues.EqualsIffSameIdentity | src/java/com/healthmarketscience/jackcess/complex/ComplexColumnInfo.java:374-380 | two values are equal iff their class, id and handle agree; the content plays no part |
| ComplexValues.EqualsIsEquivalence | src/java/com/healthmarketscience/jackcess/complex/ComplexColumnInfo.java:374-380 | `equals` is reflexive, symmetric and transitive |
| ComplexValues.EqualValuesHashEqually | src/java/com/healthmarketscience/jackcess/complex/ComplexColumnInfo.java:369-372 | equal values have equal hash codes |
| DateIntervals.Code | src/main/java/com/healthmarketscience/jackcess/impl/expr/DefaultDateFunctions.java:53-62 | each interval code is one to four lower-case letters |
| DateIntervals.TrimPadded | src/main/java/com/healthmarketscience/jackcess/impl/expr/DefaultDateFunctions.java:127 | trimming removes any characters up to U+0020 around a string that has none at its ends |
| DateIntervals.TrimIdempotent | src/main/java/com/healthmarketscience/jackcess/impl/expr/DefaultDateFunctions.java:127 | trimming twice trims nothing more |
| DateIntervals.ParseInterval | src/main/java/com/healthmarketscience/jackcess/impl/expr/DefaultDateFunctions.java:127-153 | a recognised interval's code matches the trimmed argument ignoring case; anything else is an "Invalid interval" error carrying the trimmed argument |
| DateIntervals.ParseIntervalComplete | src/main/java/com/healthmarketscience/jackcess/impl/expr/DefaultDateFunctions.java:129-153 | an interval is recognised iff the trimmed argument equals its code ignoring case, so no argument matches two codes |
| DateIntervals.ParseIntervalRoundTrip | src/main/java/com/healthmarketscience/jackcess/impl/expr/DefaultDateFunctions.java:127-153 | every code, padded with blanks and in lower or upper case, selects its interval |
| DateFields.DayOfWeekToWeekDay | src/main/java/com/healthmarketscience/jackcess/impl/expr/DefaultDateFunctions.java:528-532 | a day of the week renumbered from `firstDay` lies in 1..7, agrees with the shift modulo 7, and is 1 iff the day is `firstDay` |
| DateFields.WeekDayToDayOfWeek | src/main/java/com/healthmarketscience/jackcess/impl/expr/DefaultDateFunctions.java:534-538 | a week day numbered back to a day of the week lies in 1..7 and agrees with the shift modulo 7 |
| DateFields.WeekDayRoundTrip | src/main/java/com/healthmarketscience/jackcess/impl/expr/DefaultDateFunctions.java:528-538 | renumbering a day of the week and numbering it back gives the day |
| DateFields.DayOfWeekRoundTrip | src/main/java/com/healthmarketscience/jackcess/impl/expr/DefaultDateFunctions.java:528-538 | numbering a week day as a day of the week and renumbering it gives the week day |
| DateFields.GetQuarter | src/main/java/com/healthmarketscience/jackcess/impl/expr/DefaultDateFunctions.java:613-617 | the quarter of a 0-based month is in 1..4 and holds that month |
| DateFields.TwoDigitYear | src/main/java/com/healthmarketscience/jackcess/impl/expr/DefaultDateFunctions.java:99-102 | years 0-29 become 2000-2029, other years below 100 become 19xx with the same last two digits, and later years are kept |
| DateFields.TwoDigitYearIdempotent | src/main/java/com/healthmarketscience/jackcess/impl/expr/DefaultDateFunctions.java:99-102 | an expanded year is not expanded again |
| DateFields.DateSerialFields | src/main/java/com/healthmarketscience/jackcess/impl/expr/DefaultDateFunctions.java:92-114 | `DateSerial` sets the expanded year, the month less one (0-based) and the day |
| DateFields.DateSerialMonthRoundTrip | src/main/java/com/healthmarketscience/jackcess/impl/expr/DefaultDateFunctions.java:109 | the quarter of the month `DateSerial` sets is the quarter of the 1-based month given |
| DateFields.MinDaysInFirstWeek | src/main/java/com/healthmarketscience/jackcess/impl/expr/DefaultDateFunctions.java:576-593 | types 1, 2 and 3 give 1, 4 and 7 minimal days (3t-2); any other type is an "Invalid first week of year type" error |
| DateFields.WeekOfYearYear | src/main/java/com/healthmarketscience/jackcess/impl/expr/DefaultDateFunctions.java:619-636 | the week's year is the year before iff a week 52 or later is read in January, and the year after iff week 1 is read in another month |
| DateFields.WeekCalendar.DoWeekOp | src/main/java/com/healthmarketscience/jackcess/impl/expr/DefaultDateFunctions.java:568-611 | the week number, or the weeks in the year, read under the given first day and minimal days; an invalid type is an error; the calendar's own settings are restored in every case |
| TimeSerials.TotalFitsInLong | src/main/java/com/healthmarketscience/jackcess/impl/expr/DefaultDateFunctions.java:326-331 | three `int` arguments never overflow the `long` total |
| TimeSerials.TimeSerialSeconds | src/main/java/com/healthmarketscience/jackcess/impl/expr/DefaultDateFunctions.java:330-338 | the normalised total lies in 0..86400 and is congruent to the total modulo a day; it is 86400 only for a total of exactly one day; a total already in range is unchanged |
| TimeSerials.TimeOfDayUnique | src/main/java/com/healthmarketscience/jackcess/impl/expr/DefaultDateFunctions.java:330-338 | only one value meets that description |
| TimeSerials.TimeOfDayClosedForm | src/main/java/com/healthmarketscience/jackcess/impl/expr/DefaultDateFunctions.java:332-338 | that value is the Euclidean remainder modulo a day, except for a total of exactly one day |
| DateDiffs.FoldYears | src/main/java/com/healthmarketscience/jackcess/impl/expr/DefaultDateFunctions.java:643-647 | the year loops (also at lines 238-241, 248-251 and 265-269) add the units of every year between the two years to the later count |
| DateDiffs.UnitsBetweenConstant | src/main/java/com/healthmarketscience/jackcess/impl/expr/DefaultDateFunctions.java:238-251 | with four quarters or twelve months a year, the years between add four or twelve units each |
| DateDiffs.UnitsBetweenSplit | src/main/java/com/healthmarketscience/jackcess/impl/expr/DefaultDateFunctions.java:643-647 | the units folded from one year to another add up across an intermediate year |
| DateDiffs.DayDiff | src/main/java/com/healthmarketscience/jackcess/impl/expr/DefaultDateFunctions.java:638-649 | the later day of the year plus the days of the years between, less the earlier day of the year |
| DateDiffs.HourDiff | src/main/java/com/healthmarketscience/jackcess/impl/expr/DefaultDateFunctions.java:651-656 | the hour difference on 24-hour days |
| DateDiffs.MinuteDiff | src/main/java/com/healthmarketscience/jackcess/impl/expr/DefaultDateFunctions.java:658-663 | the minute difference on 24-hour days, in exact arithmetic |
| DateDiffs.DateDiff | src/main/java/com/healthmarketscience/jackcess/impl/expr/DefaultDateFunctions.java:200-286 | null for a null date, an error for an unknown interval or (for weeks) an unknown first-week type, otherwise the difference between the ordered dates, negated when they were swapped |
| DateDiffs.IntervalDiffSame | src/main/java/com/healthmarketscience/jackcess/impl/expr/DefaultDateFunctions.java:230-282 | a date is at distance 0 from itself in every interval, and the only error is an invalid first-week type for weeks |
| DateDiffs.DateDiffAntisymmetric | src/main/java/com/healthmarketscience/jackcess/impl/expr/DefaultDateFunctions.java:218-224 | swapping the dates negates the result and keeps the errors |
| DateDiffs.CalendarDiffsClosedForm | src/main/java/com/healthmarketscience/jackcess/impl/expr/DefaultDateFunctions.java:231-252 | years, quarters and months between ordered dates in closed form (4 and 12 per year) |
| DateDiffs.DiffsOnTimeline | src/main/java/com/healthmarketscience/jackcess/impl/expr/DefaultDateFunctions.java:226-228 | the day, hour and second differences are differences of positions on a line of 24-hour days, counted from any earlier year |
| DateDiffs.DiffsFollowOrder | src/main/java/com/healthmarketscience/jackcess/impl/expr/DefaultDateFunctions.java:218-224 | between ordered, well-formed dates the day, hour, minute and second differences are not negative |
| DateDiffs.SecondDiffAsWrittenWraps | src/main/java/com/healthmarketscience/jackcess/impl/expr/DefaultDateFunctions.java:275-279 | the `int` computation of the hour, minute and second differences is the exact difference wrapped to 32 bits |
| DateDiffs.SecondDiffOverflows | src/main/java/com/healthmarketscience/jackcess/impl/expr/DefaultDateFunctions.java:275-279 | across a century of 365- or 366-day years the exact second count is positive and the `int` one negative |
| DateDiffs.SecondDiffCenturyExample | src/main/java/com/healthmarketscience/jackcess/impl/expr/DefaultDateFunctions.java:275-279 | between 1 January 1900 and 1 January 2000 (Gregorian) the `int` second count is negative |
| DateParts.PartOf | src/main/java/com/healthmarketscience/jackcess/impl/expr/DefaultDateFunctions.java:127-153 | the field for each interval: quarter in 1..4, month 1-based in 1..12, weekday in 1..7 and 1 iff the day is `firstDay`, week read under the type's minimal days; the only error is an invalid first-week type |
| DateParts.DatePart | src/main/java/com/healthmarketscience/jackcess/impl/expr/DefaultDateFunctions.java:116-157 | null for a null date; an error iff the interval is unknown or it is a week with an invalid type; otherwise a value |
| DateParts.DiffsMatchParts | src/main/java/com/healthmarketscience/jackcess/impl/expr/DefaultDateFunctions.java:231-252 | the year, quarter and month differences are differences of what `DatePart` reads, plus 4 or 12 for each year between |
| DateParts.AddStep | src/main/java/com/healthmarketscience/jackcess/impl/expr/DefaultDateFunctions.java:172-194 | a quarter adds `val * 3` months in `int` arithmetic; every other interval adds `val` |
| DateParts.QuartersAreThreeMonths | src/main/java/com/healthmarketscience/jackcess/impl/expr/DefaultDateFunctions.java:174-177 | adding quarters is adding three times as many months whenever that count is an `int` |
| DateParts.AddStepFields | src/main/java/com/healthmarketscience/jackcess/impl/expr/DefaultDateFunctions.java:172-194 | different intervals add to different calendar fields, except "y" and "d", which both add days of the year |
| DateParts.DateAdd | src/main/java/com/healthmarketscience/jackcess/impl/expr/DefaultDateFunctions.java:159-198 | null for a null date; an "Invalid interval" error iff the interval is unknown; otherwise the field and amount to add |

## Left out

- **Table library.** The Jackcess `Table`, `Cursor` and `IndexCursor` are modelled only as far as the store uses them:
  - keys come from an auto-number counter;
  - an update keeps the key;
  - an index scan visits the rows of a foreign-key group in insertion order.
  - Index page layout, locking and I/O errors are outside the model.
- **Cursor position.** The position of a cursor and the `columnNames` projection that `countValues` passes are not modelled. The projection does not change the count.
- **Exception unwrapping.** `deleteAllValues` rethrows an `IOException` wrapped in a `RuntimeException`; this is not modelled, since the model raises no I/O errors.
- **Row conversion.** `Table.asRow` and `Table.asUpdateRow`, which turn a `Row` map into a row array, are not modelled: a raw row is already a flat-table row.
- **Variant conversion.** `toValue` is abstract in `ComplexColumnInfo` (lines 327-330), and its subclasses are not part of this model. Every variant is assumed to build its value with the row's primary-key cell as the id and the handle passed in as the foreign key. The variant content of a value is a codec given as the functions `encode`/`decode`. The ids and handles that `GetValues` and `ToValues` promise rest on this assumption.
- **Other members.** `postTableLoadInit`, the getters and `toString` are not modelled.
- **Foreign-key handle.** `ComplexValueForeignKey.java` is not part of this model. Its equality is taken as equality of column and value, and its hash code as the value. `INVALID_COMPLEX_VALUE_ID` is compared by value rather than by reference.
- **Conversions and parameters.** `getAsLongInt`, `getAsString`, `nonNullToCalendar` and `getOptionalIntParam` are not part of this model: the date functions take `int`s, strings and calendar fields directly.
- **Calendar behaviour.** What `java.util.Calendar` computes comes in as `CalendarRules` and the `WeekCalendar` functions: days in a year, week numbers, weeks in a year, and what `Calendar.add` and `getTime` do with the fields set.
  - `DateAdd` stops at the field and amount it adds.
  - `DateSerial` stops at the fields it sets.
  - `Calendar.after` is taken as the order of year, day of the year and time of day.
  - Each call of the context's `getCalendar` is assumed to return a separate calendar, so the two dates of `DateDiff` are independent `Stamp`s. If that calendar were shared, both dates would read the second one. `getDayDiff` and `getWeekOfYearYear` move the calendar by `add(YEAR, ±1)` in place. The model passes the year number along as a value instead, and assumes each such step changes the year by exactly one.
- **Week loop.** The week loop in `DateDiff` is taken to step one calendar year back each time. The era change at year 1 is not modelled.
- **Floating point.** `TimeSerial`'s division into a fraction of a day is not modelled.
- **Other date functions.** The functions of `DefaultDateFunctions` outside `DatePart`, `DateAdd`, `DateDiff`, `DateSerial` and `TimeSerial` (`Now`, `Time`, `Timer`, `TimeValue`, `Hour` and the rest) are not modelled.
- DateIntervals.ParseInterval: `equalsIgnoreCase` is modelled for ASCII letters only. Java also matches a code against non-ASCII characters whose case mapping reaches an ASCII letter, such as U+017F against "s".
- DateFields.DayOfWeekToWeekDay: the `int` overflow of the shifted sum for a `firstDay` near the limits of `int` is not modelled.
- DateDiffs.MinuteDiff: the result is exact. The source's `getMinuteDiff` wraps at 32 bits for spans over about 4083 years; the `int` version is `MinuteDiffAsWritten`.
- DateDiffs.DateDiff: the result is exact.
  - The 32-bit wrap-around of the `int` computation is stated separately, by `SecondDiffAsWritten` and `SecondDiffAsWrittenWraps`; see Findings.
  - `result * sign` overflowing for `Integer.MIN_VALUE` is not modelled.

## Findings

| source | as written | input that shows it | evidently intended | confidence | as-written member | corrected member |
|---|---|---|---|---|---|---|
| src/main/java/com/healthmarketscience/jackcess/impl/expr/DefaultDateFunctions.java:275-279 | the second difference `(s2 + (60 * minuteDiff)) - s1` is computed in 32-bit `int`, so it wraps past 2^31 - 1 seconds, about 68 years. The minute difference at lines 658-663 wraps in the same way past about 4083 years. | `DateDiff("s", #1/1/1900#, #1/1/2000#)` is 36524 days, 3155673600 seconds exactly; as an `int` it comes out as -1139293696 | the exact number of seconds, which is positive for a later second date | not executed; high for the arithmetic, the intent inferred | DateDiffs.SecondDiffAsWritten (shown by DateDiffs.SecondDiffCenturyExample) | DateDiffs.DateDiff (exact, with DateDiffs.DiffsOnTimeline and DateDiffs.DiffsFollowOrder) |
