# ADIFConvert, modelled in Dafny

ADIFConvert turns a spreadsheet of amateur-radio contacts (QSOs) into an ADI
text file. That file uses the `<TAG:LEN>DATA` data specifiers and the `<EOR>`
end-of-record marker of the ADI File Format section of the ADIF 3.1.6
specification. This project models the conversion pipeline of `main.py` and
of its earlier variant `demo.py`, and proves what they promise:

- **Field writer (`write_adif_field`).** It skips `None` and `""`. Otherwise it
  stringifies and trims the value, rejects a trimmed value that still holds a
  line feed, and appends `<TAG:LEN>value\n`. Every written field reads back,
  through its length prefix, as exactly the trimmed value.
- **Record converter (`process_single_record`).**
  - **Clock shift.** The time cell is taken as UTC+8 and moved to UTC, then
    written as `QSO_DATE` (`YYYYMMDD`) and `TIME_ON` (`HHMM`). The date rolls
    back across month, year and leap-day boundaries exactly when the local hour
    is before 8.
  - **Frequency.** The text is prefix-matched against `(\d+\.\d+)(-\d+)?`.
    Group 2 carries its minus sign, so `FREQ` is group 1 less the offset digits
    and `FREQ_RX` is group 1.
  - **Mapped columns.** The `FIELD_MAPPING` columns follow, then `<EOR>` and a
    blank line. A converted record reads back as exactly the fields it was
    written from.
- **Batch driver (`generate_adif`).**
  - It writes the four header lines and builds the header map, in which the last
    column of a name wins and `None` names are ignored.
  - It fails when one of the three required columns is missing.
  - Otherwise it appends the records of the good rows in row order. It counts
    every row once, as a success or as a failure.
- **Reply classifier (`get_user_confirmation`).** A reply is trimmed and
  lower-cased. A blank reply takes the default, `y`/`yes`/`是` confirm,
  `n`/`no`/`否` refuse, and anything else asks again.
- **`demo.py`.** This variant skips only missing (NA) values and localises only
  naive times. It drops an unreadable frequency silently, writes no header, and
  lets the first error abort the whole run. The differences from `main.py` are
  stated as lemmas.

Modules, one concept each:

| file | module | what it holds |
|---|---|---|
| `wrappers.dfy` | `Wrappers` | `Option`, `Result` |
| `strings.dfy` | `Strings` | Python `str.isspace` and `str.strip()`, ASCII `upper`/`lower`, decimal digits, `str(n)`, zero padding |
| `calendar.dfy` | `Calendar` | proleptic Gregorian dates (years 1..9999), day and minute numbers, the minute shift of `astimezone`, `strftime` texts |
| `cells.dfy` | `Cells` | the cell union (`None`, text, number, `datetime`) and its `str()` |
| `adif.dfy` | `Adif` | field and record texts, a length-prefixed reader, `FIELD_MAPPING`, and `OutputBuffer` (the `StringIO` class) |
| `frequency.dfy` | `Frequency` | the frequency pattern, exact decimals and the printed frequency text |
| `main_convert.dfy` | `MainConvert` | `main.py`'s writer, record converter and batch driver: specification functions and the methods proved against them |
| `main_properties.dfy` | `MainProperties` | what `main.py` promises, as lemmas |
| `confirm.dfy` | `Confirm` | the reply classifier and its re-prompt loop |
| `demo_convert.dfy` | `DemoConvert` | `demo.py`'s writer and all-rows loop |
| `demo_properties.dfy` | `DemoProperties` | what `demo.py` promises, and how it differs from `main.py` |

Four behaviours of the code are easy to miss:

- A whitespace-only value is written as `<TAG:0>`, because the emptiness test
  at main.py:45 comes before the trim at main.py:46.
- `main.py` replaces any zone the time cell carries by UTC+8 (main.py:63);
  only `demo.py` keeps the zone of an aware time.
- The split offset is subtracted: group 2 keeps its minus sign, so
  `float("-1")` is added to the primary value (main.py:78-79).
- `process_single_record` re-raises its error (main.py:96-97) rather than
  returning `None` as its docstring says. It is modelled as a `Result`.

## Model

| member | source | states |
|---|---|---|
| MainConvert.WriteAdifField | main.py:43-49 | On a newline error the stream is left as it was and the error is returned; otherwise exactly the outcome's text (nothing, or one `<TAG:LEN>value\n`) is appended |
| MainConvert.FieldOutcome | main.py:45-49 | Defines what the writer makes of one value: nothing for `None` or `""`; the newline error naming `FIELD_MAPPING.get(field, field)` when the stripped `str()` holds a line feed; otherwise the field with the upper-cased tag and the stripped text |
| MainConvert.Emitted | main.py:49 | Defines the text an outcome appends: nothing, or the field's `<TAG:LEN>DATA` line |
| MainProperties.FieldSkippedIff | main.py:45 | Nothing is written if and only if the value is `None` or `""`; the test is on the untrimmed value |
| MainProperties.NewlineRejectedIff | main.py:46-48 | The value is refused if and only if it is not skipped and its trimmed text holds a line feed; the error names the mapped column, or the tag when the tag is not mapped |
| MainProperties.FieldWritten | main.py:46-49 | Any other value is written as one field: the tag upper-cased, the data the trimmed text, the length that of the trimmed text |
| MainProperties.WhitespaceOnlyWritesEmptyField | main.py:45-49 | A non-empty whitespace-only text is not skipped: it becomes the zero-length field `<TAG:0>` |
| MainProperties.EdgeNewlinesAccepted | main.py:46-47 | Line feeds at either end are trimmed away before the newline test, so such a value is accepted and written without them |
| MainProperties.UpperKeepsValidTag | main.py:49 | Upper-casing a tag cannot introduce a `:` or `>` that would break the data specifier |
| MainProperties.FieldRoundTrip | main.py:49 | A written field, followed by any text, reads back through its length prefix as exactly the upper-cased tag and the trimmed value, leaving that text |
| MainConvert.PlainFieldOutcome | main.py:45-49 | A text that is non-blank at both ends and has no line feed is written unchanged under the upper-cased tag |
| MainConvert.TimeTextsPlain | main.py:67-68 | The date and time texts of any instant are written unchanged |
| MainConvert.TimeFieldsOfUtc | main.py:67-68 | Once the UTC instant is known, the record starts with `QSO_DATE` and `TIME_ON` holding its date and time texts |
| MainConvert.FrequencyMatch | main.py:71-84 | A frequency cell that is read and matched always yields well-formed groups: digits, a point and digits, then optionally the offset digits |
| MainConvert.FrequencyFieldsOfMatch | main.py:76-82 | With an offset, the frequency part is `FREQ` (the transmit value) then `FREQ_RX` (the primary value); without one, it is `FREQ` (the primary value) alone |
| MainConvert.WriteTimeFields | main.py:58-68 | Appends exactly the two time fields, or returns the error of a missing, non-date or out-of-range time with the stream unchanged |
| MainConvert.WriteFrequencyFields | main.py:70-84 | Appends exactly the frequency fields, or returns the error of a missing or unmatched frequency with the stream unchanged |
| MainConvert.WriteMappedFields | main.py:86-91 | The `FIELD_MAPPING` loop appends the fields of the mapped columns in table order, or returns the first field error |
| MainConvert.ProcessSingleRecord | main.py:52-99 | The record converter returns exactly the record of the row (time, frequency, mapped fields, `<EOR>`), or the first error it raises; the result is a function of the row and the header map |
| MainConvert.UtcTime | main.py:58-65 | Defines the UTC instant of a row: the time cell looked up through the header map, an error if it is `None` or not a date-time, its zone replaced by UTC+8, shifted to UTC, and an error if that leaves years 1..9999 |
| MainConvert.TimeFields | main.py:67-68 | Defines the time fields: `QSO_DATE` then `TIME_ON` of the UTC instant |
| MainConvert.FrequencyFields | main.py:70-84 | Defines the frequency fields: an error for a `None` or unmatched frequency, otherwise `FREQ` = transmit and `FREQ_RX` = primary with an offset, or `FREQ` = primary without |
| MainConvert.MappedFields | main.py:86-91 | Defines the mapped fields: for each table entry in order, nothing when its column is not in the header map, otherwise the writer's outcome on that cell; the first error ends it |
| MainConvert.RecordFields | main.py:58-91 | Defines the record's fields: the time fields, then the frequency fields, then the mapped fields, or the first error |
| MainConvert.ConvertRecord | main.py:52-99 | Defines the record text: those fields, then `<EOR>` and a blank line, or the error |
| MainProperties.RecordFailsIff | main.py:56-97 | A record fails if and only if its time, its frequency or one of its mapped columns fails; the fields written from a known time and a matched frequency never fail |
| MainProperties.MissingTimeFails | main.py:59-61 | A `None` time cell fails the record with the missing-time error |
| MainProperties.MissingFrequencyFails | main.py:72-74 | With a good time, a `None` frequency cell fails the record with the missing-frequency error |
| MainProperties.UnmatchedFrequencyFails | main.py:83-84 | With a good time, a frequency text the pattern does not match fails the record with an error quoting that text |
| MainProperties.RecordLayout | main.py:67-93 | A converted record's tags are `QSO_DATE`, `TIME_ON`, `FREQ`, then `FREQ_RX` exactly when the frequency had an offset, then the upper-cased tags of the mapped columns that are in the header and hold a value, in table order |
| MainProperties.MappedFieldsTags | main.py:86-91 | The mapped part carries exactly those tags, in order |
| MainProperties.MappedTagsFrom | main.py:87-91 | Every mapped tag is the upper-cased tag of an entry of the table |
| MainProperties.RecordRoundTrip | main.py:93 | A converted record, followed by any text, reads back field by field as exactly the fields it was written from, up to and including `<EOR>` |
| MainProperties.ZoneIgnored | main.py:63 | Whatever zone the time cell carries, the UTC instant is the same: the zone is replaced by UTC+8 |
| MainProperties.UtcOfLocal | main.py:63-65 | UTC is local time less eight hours: the same day from 08:00 local, the previous calendar day before that, and out of range before 0001-01-01 08:00 |
| MainProperties.QsoDateShift | main.py:65-68 | `QSO_DATE` keeps the local date if and only if the local hour is 8 or later, and is otherwise the previous day; the UTC hour is the local hour less 8 (mod 24) and the minute is kept |
| MainProperties.LeapDayExample | main.py:63-65 | 2024-03-01 05:30 in UTC+8 is 2024-02-29 21:30 UTC |
| MainProperties.LeapDayDateText | main.py:67 | That instant is written as `QSO_DATE` `20240229` |
| MainProperties.LeapDayTimeText | main.py:68 | and as `TIME_ON` `2130`, the seconds dropped |
| MainProperties.SplitFrequencyMatch | main.py:76-78 | In `14.195-1.0`, group 1 is `14.195`, group 2 is `-1`, and the trailing `.0` is ignored |
| MainProperties.SplitFrequencyPrimary | main.py:77 | Group 1 of that text has the value 14.195 |
| MainProperties.SplitFrequencyTransmit | main.py:79 | The transmit value, group 1 plus the negative group 2, is 13.195 |
| MainProperties.SplitFrequencyTransmitText | main.py:79 | and `FREQ` is written as `13.195` |
| MainProperties.SplitFrequencyPrimaryText | main.py:80 | and `FREQ_RX` as `14.195` |
| MainProperties.RefusedFrequencies | main.py:83-84 | `14` (no point), `abc` and `.5` (no leading digits) do not match |
| MainProperties.HeaderMapKeys | main.py:115 | A cell is a key of the header map if and only if it is not `None` and appears in the header row |
| MainProperties.HeaderMapLast | main.py:115 | A key maps to the last column of the header row that carries it |
| MainConvert.FirstMissing | main.py:118-121 | None if and only if every required column is a key; otherwise the first required column that is not |
| MainProperties.GeneratedFailsIff | main.py:118-121 | The run fails if and only if one of `呼号`, `时间`, `频率` is missing from the header map, whatever the rows, and then with a missing-column error naming the first of them, in that order, that is missing |
| MainProperties.GeneratedOk | main.py:107-143 | Otherwise the text is the four header lines, then the records of the good rows, and successes plus failures is the number of rows |
| MainProperties.BatchCounts | main.py:124-136 | Every data row is counted exactly once, as a success or as a failure |
| MainProperties.BatchAppend | main.py:128-136 | The row loop over two runs of rows is the loop over the first then over the second: texts concatenate and counts add |
| MainProperties.BadRowWritesNothing | main.py:133-136 | A failing row adds no text and one failure |
| MainProperties.GoodRowWritesRecord | main.py:130-132 | A good row adds exactly its record, after the records of the rows before it |
| MainConvert.WriteHeader | main.py:107-111 | Appends exactly the banner, homepage, version and creation-time lines |
| MainProperties.VersionLineField | main.py:110 | The version line is the ADIF field `ADIF_VER` = `3.1.6` with the right length |
| MainProperties.StampLineField | main.py:111 | The creation-time line is the ADIF field `CREATED_TIMESTAMP` holding `YYYYMMDDHHMMSS` of the given clock reading |
| MainProperties.StampTextLength | main.py:111 | That timestamp is 14 characters long, as the line's length prefix says |
| MainConvert.WriteRows | main.py:128-136 | The row loop leaves the text of the good rows' records appended in row order, and the success and failure counters of the rows |
| MainConvert.GenerateAdif | main.py:102-143 | `generate_adif` returns the missing-column error, or the header and the good records together with the counters |
| MainConvert.HeaderMap | main.py:115 | Defines the header map: each non-`None` header cell to the index of its last occurrence |
| MainConvert.Batch | main.py:124-136 | Defines the row loop: from empty text and zero counters, a good row appends its record and adds a success, a bad row adds a failure |
| MainConvert.HeaderText | main.py:107-111 | Defines the four header lines: banner, homepage, `ADIF_VER` and `CREATED_TIMESTAMP` of the given time |
| MainConvert.Generated | main.py:102-143 | Defines the run: the missing-column error for the first required column absent from the header map, otherwise the header lines followed by the row loop's text, with its counters |
| Adif.ReadFieldText | main.py:49 | A field text with a tag free of `:` and `>` reads back as exactly its tag and data, whatever follows it |
| Adif.FieldIsNotEndOfRecord | main.py:93 | No field text can be taken for the `<EOR>` marker |
| Adif.ReadRecordText | main.py:93 | A record text reads back as exactly its fields, in order, leaving what follows |
| Adif.FieldText | main.py:49 | Defines the written field: `<`, the tag, `:`, `str()` of the data's length, `>`, the data and a line feed |
| Adif.RecordText | main.py:93 | Defines the written record: its fields in order, then `<EOR>` and a blank line |
| Adif.ColumnOrTag | main.py:48 | Defines `FIELD_MAPPING.get(field, field)`: the mapped column of a tag, or the tag itself |
| Adif.Lookup | main.py:48 | `FIELD_MAPPING.get`: None if and only if no entry has the key; otherwise the value of an entry with that key |
| Adif.OutputBuffer.Write | main.py:49 | `StringIO.write` appends its argument at the end and changes nothing else |
| Adif.OutputBuffer.constructor | main.py:54 | A new stream is empty |
| Calendar.AddMinutes | main.py:65 | A shift by less than a day moves the minute number by exactly that amount and keeps the second, and fails if and only if it leaves years 1..9999 |
| Calendar.ToUtc | main.py:65 | The UTC instant lies `offset` minutes before the local time on the minute line |
| Calendar.AddMinutesInverse | main.py:65 | Shifting back by the same amount returns the original date-time |
| Calendar.MinuteNumberInjective | main.py:65 | A date-time is fixed by its minute number and its second |
| Calendar.PrevDay | main.py:65 | The previous calendar day is a valid date whose day number is one less, across month, year and leap-day boundaries |
| Calendar.NextDay | main.py:65 | The next calendar day is a valid date whose day number is one more |
| Calendar.NextOfPrev | main.py:65 | The day after the previous day is the day itself |
| Calendar.PrevOfNext | main.py:65 | The day before the next day is the day itself |
| Calendar.DayNumberInjective | main.py:65 | No two valid dates share a day number |
| Calendar.DayNumberOrder | main.py:65 | Calendar order is day-number order |
| Calendar.DayNumberRange | main.py:65 | Every valid date lies between 0001-01-01 and 9999-12-31 on the day line |
| Calendar.YearBoundary | main.py:65 | 1 January follows 31 December of the year before |
| Calendar.MonthBoundary | main.py:65 | The first of a month follows the last day of the month before, including 29 February in leap years |
| Calendar.DaysInMonth | main.py:65 | Every month has 28 to 31 days |
| Calendar.DateTextRoundTrip | main.py:67 | `strftime('%Y%m%d')` is eight digits that give back the date |
| Calendar.HourMinuteTextRoundTrip | main.py:68 | `strftime('%H%M')` is four digits that give back the hour and minute |
| Calendar.DateText | main.py:67 | Defines `strftime('%Y%m%d')`: the year in four digits, month and day in two |
| Calendar.HourMinuteText | main.py:68 | Defines `strftime('%H%M')`: hour and minute in two digits each, seconds dropped |
| Calendar.StampText | main.py:111 | Defines `strftime('%Y%m%d%H%M%S')`: the date, hour and minute texts, then the second in two digits |
| Frequency.MatchFrequency | main.py:76 | Any match it reports is well formed |
| Frequency.DigitRun | main.py:40 | The greedy `\d*`: a run of digits not followed by a digit |
| Frequency.MatchIsPrefix | main.py:76 | A match is a prefix of the text, and the greedy groups cannot extend into what follows it |
| Frequency.MatchOfText | main.py:76 | Any well-formed groups, followed by text the groups stop before, are matched as exactly those groups |
| Frequency.MatchFrequencyIff | main.py:40 | The pattern matches a text if and only if the text begins with digits, a point and digits (optionally `-digits`) at which the greedy groups stop, whatever follows |
| Frequency.DecimalTextPlain | main.py:79-82 | A printed frequency is non-blank at both ends and has no line feed, so it is never refused or altered by the field writer |
| Frequency.DecimalTextReadsBack | main.py:77-82 | A printed non-negative frequency is matched in full by the pattern, with no group 2, and group 1 has the same value |
| Frequency.Primary | main.py:77 | Defines `float(match.group(1))` as the exact decimal of the whole and fraction digits |
| Frequency.Transmit | main.py:79 | Defines `primary + float(match.group(2))`: the primary value less the offset digits, since the group carries the minus sign |
| Frequency.DecimalText | main.py:79-82 | Defines the printed frequency: a sign when negative, the integer digits, a point, and the fraction without trailing zeros (at least one digit) |
| Strings.Strip | main.py:46 | `str.strip()` never lengthens a text and leaves no whitespace at either end |
| Strings.IsSpace | main.py:46 | Defines Python's `str.isspace` for one character, as the table of whitespace code points `strip()` removes |
| Cells.Str | main.py:46 | Defines `str()` of a cell: `None` for an empty cell, the text of a string, the printed text of a number, and `str(datetime)` of a date-time |
| Cells.DateTimeText | main.py:46 | Defines `str(datetime)`: `YYYY-MM-DD HH:MM:SS`, then `+HH:MM` or `-HH:MM` when the time carries a zone |
| Strings.StripSplit | main.py:46 | Every text is its stripped form between two runs of whitespace |
| Strings.StripAllSpace | main.py:46 | A whitespace-only text strips to the empty text |
| Strings.StripUnpadded | main.py:46 | A text not padded with whitespace is left unchanged |
| Strings.StripIgnoresPadding | main.py:46 | Extra whitespace on either side does not change the stripped text |
| Strings.Upper | main.py:49 | `upper()` keeps the length and upper-cases character by character |
| Strings.NatToStringValue | main.py:49 | The length prefix `str(len(s))` is digits that denote `len(s)` |
| Strings.PadValue | main.py:67-68 | A zero-padded field of `strftime` is digits that denote the number |
| Strings.Lower | main.py:185 | `lower()` keeps the length and lower-cases character by character |
| Strings.StripLower | main.py:185 | Lower-casing and stripping commute |
| Confirm.PromptLine | main.py:182 | The prompt gets `[Y/n]` if and only if the default is yes, and `[y/N]` otherwise |
| Confirm.Normalised | main.py:185 | Defines the reply as compared: `strip()` then `lower()` |
| Confirm.Classify | main.py:185-196 | Defines the decision on one reply: the default when blank, yes for `y`/`yes`/`是`, no for `n`/`no`/`否`, and none (ask again) otherwise |
| Confirm.BlankIff | main.py:185-188 | A reply normalises to the empty text if and only if it is all whitespace |
| Confirm.ConfirmIff | main.py:185-191 | A reply confirms if and only if it normalises to `y`, `yes` or `是`, or is blank while the default is yes |
| Confirm.RefuseIff | main.py:185-194 | A reply refuses if and only if it normalises to `n`, `no` or `否`, or is blank while the default is no |
| Confirm.InvalidIff | main.py:185-196 | A reply asks again if and only if it normalises to something other than the empty text and the six words |
| Confirm.PaddingIgnored | main.py:185 | Whitespace around a reply does not change the decision |
| Confirm.CaseIgnored | main.py:185 | Replies that differ only in ASCII letter case get the same decision |
| Confirm.ReadReply | main.py:185-196 | One pass of the loop body gives the decision of that reply |
| Confirm.GetUserConfirmation | main.py:184-196 | The loop returns the decision of the first valid reply after only invalid ones, or, when the replies run out, reports that all were invalid |
| DemoConvert.WriteDemoField | demo.py:34-40 | On a newline error the stream is left as it was; otherwise exactly the outcome's text is appended |
| DemoConvert.DemoFieldOutcome | demo.py:34-40 | Defines what the demo writer makes of one value: nothing for a missing value; the newline error naming the tag when the stripped `str()` holds a line feed; otherwise the field with the upper-cased tag and the stripped text |
| DemoConvert.DemoPlainFieldOutcome | demo.py:36-40 | A text non-blank at both ends with no line feed is written unchanged under the upper-cased tag |
| DemoProperties.DemoFieldSkippedIff | demo.py:36 | Nothing is written if and only if the value is missing (NA) |
| DemoProperties.DemoNewlineRejectedIff | demo.py:37-39 | A value is refused if and only if it is present and its trimmed text holds a line feed; the error names the tag |
| DemoProperties.DemoEmptyTextWritten | demo.py:36-40 | `""` and whitespace-only texts are written as `<TAG:0>`, where `main.py` passes over `""` |
| DemoProperties.DemoFieldAgreesWithMain | demo.py:34-40 | On every value `main.py` does not skip, the two writers succeed together and write the same field |
| DemoProperties.DemoFieldRoundTrip | demo.py:40 | A written field reads back as exactly the trimmed value |
| DemoConvert.WriteDemoTimeFields | demo.py:49-55 | Appends exactly the two time fields of the UTC instant, or returns the time error with the stream unchanged |
| DemoConvert.DemoUtcTime | demo.py:49-52 | Defines the UTC instant: an error for an absent column, a missing or a non-date-time cell; a naive time taken as UTC+8, an aware one at its own offset; an error when the shift leaves years 1..9999 |
| DemoConvert.DemoTimeFields | demo.py:54-55 | Defines the time fields: `QSO_DATE` then `TIME_ON` of that instant |
| DemoProperties.DemoNaiveTime | demo.py:50-52 | A naive time is read as UTC+8 |
| DemoProperties.DemoAwareTime | demo.py:49-52 | An aware time keeps its own offset: the UTC instant lies that many minutes earlier |
| DemoProperties.DemoUtcStampKept | demo.py:49-52 | A time already in UTC is logged unchanged |
| DemoConvert.DemoFrequencyMatch | demo.py:58-59 | A match is always well formed |
| DemoConvert.WriteDemoFrequencyFields | demo.py:58-66 | Appends exactly the frequency fields (none for an unmatched text), or returns the missing-column error with the stream unchanged |
| DemoConvert.DemoStr | demo.py:58 | Defines `str()` of a frame cell: `nan` for a missing value, otherwise the cell's `str()` |
| DemoConvert.DemoFrequencyFields | demo.py:58-66 | Defines the frequency fields: an error for an absent column, nothing for an unmatched text, otherwise the same split rule as `main.py` |
| DemoProperties.DemoMissingFrequencyUnmatched | demo.py:58 | A missing frequency prints as `nan`, which the pattern does not match |
| DemoProperties.DemoBadFrequencyDropped | demo.py:58-66 | An unmatched frequency writes nothing and raises nothing: the record is the time fields and the mapped fields alone |
| DemoProperties.DemoMatchedFrequency | demo.py:59-66 | A matched frequency gives `FREQ` = transmit then `FREQ_RX` = primary with an offset, and `FREQ` = primary without |
| DemoConvert.WriteDemoMappedFields | demo.py:69-70 | Every table entry is tried in order on `row.get`, appending exactly the mapped fields, or the first error is returned |
| DemoConvert.Get | demo.py:70 | Defines `row.get(column)`: the cell, or a missing value for an absent column |
| DemoConvert.DemoMappedFields | demo.py:69-70 | Defines the mapped fields: the writer's outcome on `row.get` of each table entry, in order, up to the first error |
| DemoProperties.DemoMappedFieldsTags | demo.py:69-70 | The mapped part carries the upper-cased tags of exactly the entries whose cell is present, in table order |
| DemoProperties.DemoAbsentColumnSkipped | demo.py:70 | A column the frame lacks reads as missing and writes nothing |
| DemoConvert.WriteDemoRecord | demo.py:47-73 | One row appends exactly its record, ending in `<EOR>` and a blank line, or returns its error |
| DemoConvert.DemoRecordFields | demo.py:49-70 | Defines a row's fields: time, then frequency, then mapped fields, or the first error |
| DemoConvert.DemoRecord | demo.py:49-73 | Defines a row's record text: those fields, then `<EOR>` and a blank line, or the error |
| DemoConvert.DemoGenerateAdif | demo.py:43-75 | `generate_adif(df)` returns the records of all rows, or the first error |
| DemoConvert.Collect | demo.py:47-75 | Defines the loop without recovery: the row texts one after the other, or the first error met |
| DemoConvert.DemoGenerated | demo.py:43-75 | Defines `generate_adif(df)`: the fold of the rows' record outcomes |
| DemoProperties.CollectFailsIff | demo.py:47-75 | The loop fails if and only if some row fails, and then with the error of the first failing row |
| DemoProperties.DemoGeneratedFailsIff | demo.py:43-75 | `generate_adif(df)` fails if and only if some row fails, with the error of the first such row: all or nothing |
| DemoProperties.DemoGeneratedAppend | demo.py:47-75 | Two runs of good rows give the records of the first run, then those of the second |
| DemoProperties.DemoNoHeader | demo.py:43-75 | There is no header: one row gives its record and nothing else |

## Left out

- Spreadsheet and file I/O are not modelled: `load_workbook`, `pd.read_excel`, `write_text`, `mkdir` and the existence check in `main()` (main.py:146-169, demo.py:78-92) are library calls. A worksheet is given as a header row and a sequence of data rows of cells, a data frame as a sequence of maps from column name to cell.
- argparse, the `__main__` re-run loop (main.py:199-213) and the printing of `message`, `details` and the invalid-input notice (main.py:175-180, 196) are interactive I/O. The replies typed at `input()` are a given sequence, and running out of them stands for end of input.
- Logging is not modelled: the start, progress and summary messages (main.py:104, 134, 138-142). The success and failure counters are returned beside the text instead of being logged.
- `datetime.now(timezone.utc)` (main.py:111) is non-deterministic, so the creation time is a parameter `now`.
- Python floats are modelled as exact decimals. `float(group)` is the exact value of the digits, and `str()` of a frequency is the plain decimal text of that value. Binary rounding is not modelled: `14.195-10` gives `FREQ` `4.195` here, where Python prints `4.194999999999999`. Nor is the exponent form `str()` uses below 1e-4 and from 1e16: `0.00001` is written `0.00001` here and `1e-05` by Python.
- `str()` of a cell is abstract for numbers: a `Number` cell carries the text Python prints for it. `None`, strings and `datetime` values are stringified explicitly. Two edges of that are not modelled. `str(datetime)` appends `.ffffff` when the microsecond is not zero; a time cell carrying milliseconds cannot be represented here, so a date-time in a mapped column would print differently. And `strftime('%Y')` is not zero-padded below year 1000 on some platforms, while `DateText` always writes four digits.
- pytz's historical `Asia/Shanghai` rules (1986-1991 daylight saving, local mean time) are not modelled; both variants use the fixed offset UTC+8 (demo.py:11, 51).
- Seconds and microseconds take no part in the shift. `TIME_ON` drops them, and offsets are whole minutes.
- `upper()` and `lower()` are modelled for ASCII letters only. Other characters are left as they are; Unicode case mapping is not modelled.
- `\d` in the frequency pattern is modelled as the ASCII digits `0`-`9`, not every Unicode decimal digit.
- The text `demo.py` has already written before an error is not returned. The exception discards the stream, so the model returns only the error.
- The pandas NaT and NaN values are modelled as the one missing cell `Empty`. A missing time in `demo.py` is an error: NaT passes `to_pydatetime()` but the row fails while it is localised or formatted (demo.py:51-55). The model names that error `MissingTime`.
- The wording of the error messages is not modelled. Each error is a constructor naming the column or tag involved.
