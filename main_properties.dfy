/**
 * What `main.py` promises about its output, stated over the converter's specification
 * functions: the field writer's cases and round trip, the clock shift, the record layout,
 * the header map and the row loop.
 */
module MainProperties {
  import opened Wrappers
  import opened Strings
  import opened Calendar
  import opened Cells
  import opened Adif
  import opened Frequency
  import opened MainConvert

  // ---- write_adif_field ----

  /** Nothing is written exactly for `None` and `""`; the check comes before trimming. */
  lemma FieldSkippedIff(field: string, data: Cell)
    ensures FieldOutcome(field, data) == Ok(None) <==> Skipped(data)
  {
  }

  /** A value is refused exactly when its trimmed text still holds a line feed; the error names the column. */
  lemma NewlineRejectedIff(field: string, data: Cell)
    ensures FieldOutcome(field, data).Err? <==> !Skipped(data) && '\n' in Strip(Str(data))
    ensures FieldOutcome(field, data).Err? ==> FieldOutcome(field, data).error == NewlineInField(ColumnOrTag(field))
  {
  }

  /** Otherwise the field is `<TAG:LEN>` with the tag upper-cased and LEN the trimmed length, then the trimmed text. */
  lemma FieldWritten(field: string, data: Cell)
    requires !Skipped(data) && '\n' !in Strip(Str(data))
    ensures var s := Strip(Str(data));
      FieldOutcome(field, data) == Ok(Some(Field(Upper(field), s)))
      && Emitted(FieldOutcome(field, data).value) == "<" + Upper(field) + ":" + NatToString(|s|) + ">" + s + "\n"
  {
  }

  /** A whitespace-only text is not skipped: it is trimmed to nothing and written as `<TAG:0>`. */
  lemma WhitespaceOnlyWritesEmptyField(field: string, s: string)
    requires s != [] && AllSpace(s)
    ensures FieldOutcome(field, Text(s)) == Ok(Some(Field(Upper(field), "")))
    ensures Emitted(FieldOutcome(field, Text(s)).value) == "<" + Upper(field) + ":0>\n"
  {
    StripAllSpace(s);
    assert NatToString(0) == "0";
  }

  /** Line feeds at either end are trimmed away before the check, so they are accepted. */
  lemma EdgeNewlinesAccepted(field: string, s: string)
    requires Plain(s)
    ensures FieldOutcome(field, Text("\n" + s + "\n")) == Ok(Some(Field(Upper(field), s)))
  {
    assert AllSpace("\n") by { assert IsSpace('\n'); }
    StripPadded("\n", s, "\n");
  }

  /** Upper-casing a tag cannot introduce the `:` or `>` a reader splits on. */
  lemma UpperKeepsValidTag(tag: string)
    requires ValidTag(tag)
    ensures ValidTag(Upper(tag))
  {
  }

  /** A written field reads back, through its length prefix, as exactly the trimmed value. */
  lemma FieldRoundTrip(field: string, data: Cell, rest: string)
    requires ValidTag(field) && FieldOutcome(field, data).Ok? && FieldOutcome(field, data).value.Some?
    ensures var f := FieldOutcome(field, data).value.value;
      f.value == Strip(Str(data)) && ReadField(Emitted(Some(f)) + rest) == Some((f, rest))
  {
    UpperKeepsValidTag(field);
    ReadFieldText(FieldOutcome(field, data).value.value, rest);
  }

  // ---- the header map ----

  /** A cell is a key exactly when it is not `None` and appears in the header row. */
  lemma {:induction false} HeaderMapKeys(header: seq<Cell>, c: Cell)
    ensures c in HeaderMap(header) <==> !c.Empty? && c in header
  {
    if header != [] {
      var init := header[..|header| - 1];
      HeaderMapKeys(init, c);
      assert header == init + [header[|header| - 1]];
    }
  }

  /** A key maps to the last column carrying that name. */
  lemma {:induction false} HeaderMapLast(header: seq<Cell>, c: Cell)
    requires c in HeaderMap(header)
    ensures var i := HeaderMap(header)[c];
      i < |header| && header[i] == c && forall j :: i < j < |header| ==> header[j] != c
  {
    var init := header[..|header| - 1];
    var last := header[|header| - 1];
    HeaderMapKeys(header, c);
    if last != c {
      assert c in HeaderMap(init);
      HeaderMapLast(init, c);
      var i := HeaderMap(header)[c];
      assert i == HeaderMap(init)[c];
      forall j | i < j < |header| ensures header[j] != c {
        if j < |init| {
          assert header[j] == init[j];
        }
      }
    }
  }

  // ---- the row loop ----

  /** Every data row is counted once, as a success or as a failure. */
  lemma {:induction false} BatchCounts(rows: seq<seq<Cell>>, headerMap: map<Cell, nat>)
    ensures Batch(rows, headerMap).successes + Batch(rows, headerMap).failures == |rows|
  {
    if rows != [] {
      BatchCounts(rows[..|rows| - 1], headerMap);
    }
  }

  /** The loop over two runs of rows is the loop over the first, then over the second. */
  lemma {:induction false} BatchAppend(a: seq<seq<Cell>>, b: seq<seq<Cell>>, headerMap: map<Cell, nat>)
    ensures var x, y, z := Batch(a, headerMap), Batch(b, headerMap), Batch(a + b, headerMap);
      z.text == x.text + y.text && z.successes == x.successes + y.successes && z.failures == x.failures + y.failures
  {
    if b == [] {
      assert a + b == a;
    } else {
      var b' := b[..|b| - 1];
      assert (a + b)[..|a + b| - 1] == a + b';
      assert (a + b)[|a + b| - 1] == b[|b| - 1];
      BatchAppend(a, b', headerMap);
      var x, y' := Batch(a, headerMap), Batch(b', headerMap);
      if ConvertRecord(b[|b| - 1], headerMap).Ok? {
        AppendAssoc(x.text, y'.text, ConvertRecord(b[|b| - 1], headerMap).value);
      }
    }
  }

  /** A row that fails adds nothing to the text; it is only counted. */
  lemma BadRowWritesNothing(a: seq<seq<Cell>>, row: seq<Cell>, b: seq<seq<Cell>>, headerMap: map<Cell, nat>)
    requires ConvertRecord(row, headerMap).Err?
    ensures Batch(a + [row] + b, headerMap).text == Batch(a + b, headerMap).text
    ensures Batch(a + [row] + b, headerMap).failures == Batch(a + b, headerMap).failures + 1
  {
    BatchAppend(a, [row], headerMap);
    BatchAppend(a + [row], b, headerMap);
    BatchAppend(a, b, headerMap);
    assert [row][..0] == [];
  }

  /** A good row adds exactly its record, after those of the rows before it. */
  lemma GoodRowWritesRecord(a: seq<seq<Cell>>, row: seq<Cell>, b: seq<seq<Cell>>, headerMap: map<Cell, nat>)
    requires ConvertRecord(row, headerMap).Ok?
    ensures Batch(a + [row] + b, headerMap).text
      == Batch(a, headerMap).text + ConvertRecord(row, headerMap).value + Batch(b, headerMap).text
  {
    BatchAppend(a, [row], headerMap);
    BatchAppend(a + [row], b, headerMap);
    assert [row][..0] == [];
  }

  // ---- generate_adif ----

  /** The whole run fails exactly when a required column is missing, whatever the data rows are, naming the first one missing. */
  lemma GeneratedFailsIff(header: seq<Cell>, rows: seq<seq<Cell>>, now: DateTime)
    ensures Generated(header, rows, now).Err? <==>
      exists i :: 0 <= i < |RequiredColumns| && Text(RequiredColumns[i]) !in HeaderMap(header)
    ensures Generated(header, rows, now).Err? ==>
      Generated(header, rows, now).error.MissingRequiredColumn?
      && Generated(header, rows, now).error.name in RequiredColumns
    ensures Generated(header, rows, now).Err? ==>
      Generated(header, rows, now).error == MissingRequiredColumn(FirstMissing(HeaderMap(header), RequiredColumns).value)
      && Text(Generated(header, rows, now).error.name) !in HeaderMap(header)
  {
  }

  /** Otherwise the text is the header, then the records of the good rows, and every row is counted. */
  lemma GeneratedOk(header: seq<Cell>, rows: seq<seq<Cell>>, now: DateTime)
    requires Generated(header, rows, now).Ok?
    ensures var t := Generated(header, rows, now).value;
      t.text == HeaderText(now) + Batch(rows, HeaderMap(header)).text
      && t.successes + t.failures == |rows|
  {
    BatchCounts(rows, HeaderMap(header));
  }

  lemma StampTextLength(now: DateTime)
    ensures |StampText(now)| == 14
  {
  }

  /** The version header line is itself an ADIF field, with the right length. */
  lemma VersionLineField()
    ensures VersionLine == FieldText(Field("ADIF_VER", "3.1.6"))
  {
    assert NatToString(5) == "5";
    VersionLineParts();
  }

  lemma VersionLineParts()
    ensures VersionLine == "<" + "ADIF_VER" + ":" + "5" + ">" + "3.1.6" + "\n"
  {
  }

  /** So is the creation-time line. */
  lemma StampLineField(now: DateTime)
    ensures StampLine(now) == FieldText(Field("CREATED_TIMESTAMP", StampText(now)))
  {
    var ts := StampText(now);
    StampTextLength(now);
    assert NatToString(14) == "14";
    assert "<" + "CREATED_TIMESTAMP" + ":" + NatToString(|ts|) + ">" == "<CREATED_TIMESTAMP:14>";
  }

  // ---- the clock shift ----

  /** UTC is local time less eight hours: the same day from 08:00, the day before until then. */
  lemma UtcOfLocal(t: DateTime)
    ensures t.hour >= 8 ==> ToUtc(t, LocalOffset) == Some(Civil(t.date, t.hour - 8, t.minute, t.second))
    ensures t.hour < 8 && t.date != FirstDate ==>
      ToUtc(t, LocalOffset) == Some(Civil(PrevDay(t.date), t.hour + 16, t.minute, t.second))
    ensures t.hour < 8 && t.date == FirstDate ==> ToUtc(t, LocalOffset) == None
  {
    var m := t.hour * 60 + t.minute - 480;
    if t.hour >= 8 {
      assert m == (t.hour - 8) * 60 + t.minute;
      assert m / 60 == t.hour - 8 && m % 60 == t.minute;
    } else {
      assert m + 1440 == (t.hour + 16) * 60 + t.minute;
      assert (m + 1440) / 60 == t.hour + 16 && (m + 1440) % 60 == t.minute;
    }
  }

  /** `QSO_DATE` moves to the previous calendar day exactly when the local hour is before 8. */
  lemma QsoDateShift(t: DateTime, u: DateTime)
    requires ToUtc(t, LocalOffset) == Some(u)
    ensures u.date == t.date <==> t.hour >= 8
    ensures t.hour < 8 ==> t.date != FirstDate && u.date == PrevDay(t.date)
    ensures u.hour == (if t.hour >= 8 then t.hour - 8 else t.hour + 16) && u.minute == t.minute
  {
    UtcOfLocal(t);
    if t.hour < 8 {
      assert DayNumber(u.date) == DayNumber(t.date) - 1;
    }
  }

  /** Whatever zone the time cell carried, it is replaced by UTC+8 before the conversion. */
  lemma ZoneIgnored(row: seq<Cell>, headerMap: map<Cell, nat>, i: nat, t: DateTime, z1: Option<Offset>, z2: Option<Offset>)
    requires i < |row|
    ensures UtcTime(row[i := Stamp(t, z1)], headerMap) == UtcTime(row[i := Stamp(t, z2)], headerMap)
  {
  }

  /** 2024-03-01 05:30 in UTC+8 is 2024-02-29 21:30 UTC: the shift crosses into the leap day. */
  lemma LeapDayExample()
    ensures ToUtc(Civil(Date(2024, 3, 1), 5, 30, 0), LocalOffset) == Some(Civil(Date(2024, 2, 29), 21, 30, 0))
  {
    var local: DateTime := Civil(Date(2024, 3, 1), 5, 30, 0);
    UtcOfLocal(local);
    assert PrevDay(local.date) == Date(2024, 2, 29) by {
      assert IsLeapYear(2024);
    }
  }

  /** That instant is logged as `QSO_DATE` 20240229 ... */
  lemma LeapDayDateText()
    ensures DateText(Civil(Date(2024, 2, 29), 21, 30, 0)) == "20240229"
  {
    PadLeapYear();
    assert Pad(2, 2) == "02";
    assert Pad(29, 2) == "29";
    LeapDayParts();
  }

  lemma PadLeapYear()
    ensures Pad(2024, 4) == "2024"
  {
    assert Pad(2, 1) == "2";
    assert Pad(20, 2) == "20";
    assert Pad(202, 3) == "202";
  }

  lemma LeapDayParts()
    ensures "2024" + "02" + "29" == "20240229"
  {
  }

  /** ... and `TIME_ON` 2130. */
  lemma LeapDayTimeText()
    ensures HourMinuteText(Civil(Date(2024, 2, 29), 21, 30, 0)) == "2130"
  {
    assert Pad(21, 2) == "21";
    assert Pad(30, 2) == "30";
  }

  // ---- the frequency ----

  /** `14.195-1.0`: group 1 is `14.195`, group 2 is `-1`, and the trailing `.0` is ignored. */
  lemma SplitFrequencyMatch()
    ensures MatchFrequency("14.195-1.0") == Some(FreqMatch("14", "195", Some("1")))
  {
    var m := FreqMatch("14", "195", Some("1"));
    assert MatchText(m) + ".0" == "14.195-1.0";
    MatchOfText(m, ".0");
  }

  /** Group 1 is read as 14.195 ... */
  lemma SplitFrequencyPrimary()
    ensures WellFormed(FreqMatch("14", "195", Some("1")))
    ensures Primary(FreqMatch("14", "195", Some("1"))) == Decimal(14195, 3)
  {
    assert "14" + "195" == "14195";
    assert NatToString(14195) == "14195" by {
      assert NatToString(1) == "1";
      assert NatToString(14) == "14";
      assert NatToString(141) == "141";
      assert NatToString(1419) == "1419";
    }
    NatToStringValue(14195);
  }

  /** ... and the transmit frequency, group 2 added to it, is 13.195. */
  lemma SplitFrequencyTransmit()
    ensures WellFormed(FreqMatch("14", "195", Some("1")))
    ensures Transmit(FreqMatch("14", "195", Some("1"))) == Decimal(13195, 3)
  {
    SplitFrequencyPrimary();
    assert DigitsValue("1") == 1;
    assert Pow10(3) == 1000;
  }

  /** `FREQ` 13.195 */
  lemma SplitFrequencyTransmitText()
    ensures DecimalText(Decimal(13195, 3)) == "13.195"
  {
    assert NatToString(13195) == "13195" by {
      assert NatToString(1) == "1";
      assert NatToString(13) == "13";
      assert NatToString(131) == "131";
      assert NatToString(1319) == "1319";
    }
  }

  /** `FREQ_RX` 14.195 */
  lemma SplitFrequencyPrimaryText()
    ensures DecimalText(Decimal(14195, 3)) == "14.195"
  {
    assert NatToString(14195) == "14195" by {
      assert NatToString(1) == "1";
      assert NatToString(14) == "14";
      assert NatToString(141) == "141";
      assert NatToString(1419) == "1419";
    }
  }

  /** A bare integer has no point, so it is refused, as is text that does not start with digits. */
  lemma RefusedFrequencies()
    ensures MatchFrequency("14").None? && MatchFrequency("abc").None? && MatchFrequency(".5").None?
  {
    assert DigitRun("4") == 1;
    assert DigitRun("14") == 2;
  }

  // ---- the record layout ----

  /** The tags of a run of fields, in order. */
  function Tags(fs: seq<Field>): seq<string> {
    seq(|fs|, i requires 0 <= i < |fs| => fs[i].tag)
  }

  lemma TagsConcat(a: seq<Field>, b: seq<Field>)
    ensures Tags(a + b) == Tags(a) + Tags(b)
  {
  }

  /**
   * The tags the mapped columns contribute: in mapping order, the upper-cased
   * tag of every entry whose column is in the header and whose cell is neither
   * `None` nor `""`.
   */
  function MappedTags(row: seq<Cell>, headerMap: map<Cell, nat>, mapping: seq<(string, string)>): seq<string> {
    if mapping == [] then []
    else
      var (tag, column) := mapping[|mapping| - 1];
      var shown := Text(column) in headerMap && headerMap[Text(column)] < |row| && !Skipped(row[headerMap[Text(column)]]);
      MappedTags(row, headerMap, mapping[..|mapping| - 1]) + (if shown then [Upper(tag)] else [])
  }

  /** The mapped fields carry exactly those tags. */
  lemma {:induction false} MappedFieldsTags(row: seq<Cell>, headerMap: map<Cell, nat>, mapping: seq<(string, string)>)
    requires MappedFields(row, headerMap, mapping).Ok?
    ensures Tags(MappedFields(row, headerMap, mapping).value) == MappedTags(row, headerMap, mapping)
  {
    if mapping != [] {
      var init := mapping[..|mapping| - 1];
      var acc := MappedFields(row, headerMap, init).value;
      MappedFieldsTags(row, headerMap, init);
      var (tag, column) := mapping[|mapping| - 1];
      if Text(column) in headerMap {
        var o := FieldOutcome(tag, row[headerMap[Text(column)]]).value;
        if o.Some? {
          assert Tags(acc + [o.value]) == Tags(acc) + [o.value.tag];
        }
      }
    }
  }

  /** Every mapped tag is the upper-cased tag of some mapping entry. */
  lemma {:induction false} MappedTagsFrom(row: seq<Cell>, headerMap: map<Cell, nat>, mapping: seq<(string, string)>)
    ensures forall j :: 0 <= j < |MappedTags(row, headerMap, mapping)| ==>
      exists i :: 0 <= i < |mapping| && MappedTags(row, headerMap, mapping)[j] == Upper(mapping[i].0)
  {
    if mapping != [] {
      var init := mapping[..|mapping| - 1];
      var last := |mapping| - 1;
      MappedTagsFrom(row, headerMap, init);
      var t0 := MappedTags(row, headerMap, init);
      var t := MappedTags(row, headerMap, mapping);
      forall j | 0 <= j < |t| ensures exists i :: 0 <= i < |mapping| && t[j] == Upper(mapping[i].0) {
        if j < |t0| {
          assert t[j] == t0[j];
          var i :| 0 <= i < |init| && t0[j] == Upper(init[i].0);
          assert mapping[i] == init[i];
        } else {
          assert t[j] == Upper(mapping[last].0);
        }
      }
    } else {
      assert MappedTags(row, headerMap, mapping) == [];
    }
  }

  lemma FixedTagsUpper()
    ensures Upper("QSO_DATE") == "QSO_DATE" && Upper("TIME_ON") == "TIME_ON"
    ensures Upper("FREQ") == "FREQ" && Upper("FREQ_RX") == "FREQ_RX"
  {
    UpperOfUpperCase("QSO_DATE");
    UpperOfUpperCase("TIME_ON");
    UpperOfUpperCase("FREQ");
    UpperOfUpperCase("FREQ_RX");
  }

  lemma TagsOfOne(a: Field)
    ensures Tags(Append([], Some(a))) == [a.tag]
  {
    assert Append([], Some(a)) == [a];
  }

  lemma TagsOfTwo(a: Field, b: Field)
    ensures Tags(Append(Append([], Some(a)), Some(b))) == [a.tag, b.tag]
  {
    assert Append(Append([], Some(a)), Some(b)) == [a, b];
  }

  lemma TimeTags(row: seq<Cell>, headerMap: map<Cell, nat>)
    requires UtcTime(row, headerMap).Ok?
    ensures TimeFields(row, headerMap).Ok? && Tags(TimeFields(row, headerMap).value) == ["QSO_DATE", "TIME_ON"]
  {
    var u := UtcTime(row, headerMap).value;
    TimeFieldsOfUtc(row, headerMap, u);
    TagsOfTwo(Field(Upper("QSO_DATE"), DateText(u)), Field(Upper("TIME_ON"), HourMinuteText(u)));
    FixedTagsUpper();
  }

  lemma FrequencyTags(row: seq<Cell>, headerMap: map<Cell, nat>)
    requires FrequencyMatch(row, headerMap).Ok?
    ensures FrequencyFields(row, headerMap).Ok?
    ensures Tags(FrequencyFields(row, headerMap).value)
      == if FrequencyMatch(row, headerMap).value.offset.Some? then ["FREQ", "FREQ_RX"] else ["FREQ"]
  {
    var m := FrequencyMatch(row, headerMap).value;
    FrequencyFieldsOfMatch(row, headerMap, m);
    FixedTagsUpper();
    if m.offset.Some? {
      TagsOfTwo(Field(Upper("FREQ"), DecimalText(Transmit(m))), Field(Upper("FREQ_RX"), DecimalText(Primary(m))));
    } else {
      TagsOfOne(Field(Upper("FREQ"), DecimalText(Primary(m))));
    }
  }

  /** The tags every record starts with: the time, then the frequency, split or not. */
  function FixedTags(split: bool): seq<string> {
    ["QSO_DATE", "TIME_ON"] + (if split then ["FREQ", "FREQ_RX"] else ["FREQ"])
  }

  lemma FixedTagsValid(split: bool)
    ensures forall k :: 0 <= k < |FixedTags(split)| ==> ValidTag(FixedTags(split)[k])
  {
    if split {
      assert FixedTags(split) == ["QSO_DATE", "TIME_ON", "FREQ", "FREQ_RX"];
    } else {
      assert FixedTags(split) == ["QSO_DATE", "TIME_ON", "FREQ"];
    }
  }

  /**
   * A record is `QSO_DATE`, `TIME_ON`, `FREQ`, then `FREQ_RX` exactly when the
   * frequency carried an offset, then the mapped columns that hold a value.
   */
  lemma RecordLayout(row: seq<Cell>, headerMap: map<Cell, nat>)
    requires RecordFields(row, headerMap).Ok?
    ensures FrequencyMatch(row, headerMap).Ok?
    ensures Tags(RecordFields(row, headerMap).value)
      == FixedTags(FrequencyMatch(row, headerMap).value.offset.Some?) + MappedTags(row, headerMap, FieldMapping)
  {
    TimeTags(row, headerMap);
    FrequencyTags(row, headerMap);
    MappedFieldsTags(row, headerMap, FieldMapping);
    var t := TimeFields(row, headerMap).value;
    var f := FrequencyFields(row, headerMap).value;
    var mf := MappedFields(row, headerMap, FieldMapping).value;
    assert RecordFields(row, headerMap).value == t + f + mf;
    TagsConcat(t, f);
    TagsConcat(t + f, mf);
  }

  lemma FieldMappingTagsValid()
    ensures forall i :: 0 <= i < |FieldMapping| ==> ValidTag(FieldMapping[i].0)
  {
  }

  /** Fields whose tags are some valid tags followed by upper-cased mapping tags all have valid tags. */
  lemma TagsValid(fs: seq<Field>, fixed: seq<string>, mapped: seq<string>)
    requires Tags(fs) == fixed + mapped
    requires forall k :: 0 <= k < |fixed| ==> ValidTag(fixed[k])
    requires forall j :: 0 <= j < |mapped| ==> exists i :: 0 <= i < |FieldMapping| && mapped[j] == Upper(FieldMapping[i].0)
    ensures forall k :: 0 <= k < |fs| ==> ValidTag(fs[k].tag)
  {
    FieldMappingTagsValid();
    forall k | 0 <= k < |fs| ensures ValidTag(fs[k].tag) {
      assert fs[k].tag == Tags(fs)[k];
      if k >= |fixed| {
        var i :| 0 <= i < |FieldMapping| && mapped[k - |fixed|] == Upper(FieldMapping[i].0);
        UpperKeepsValidTag(FieldMapping[i].0);
      }
    }
  }

  /** A converted record reads back, field by field, as exactly the fields it was written from. */
  lemma RecordRoundTrip(row: seq<Cell>, headerMap: map<Cell, nat>, rest: string)
    requires ConvertRecord(row, headerMap).Ok?
    ensures ReadRecord(ConvertRecord(row, headerMap).value + rest) == Some((RecordFields(row, headerMap).value, rest))
  {
    var fs := RecordFields(row, headerMap).value;
    RecordLayout(row, headerMap);
    MappedTagsFrom(row, headerMap, FieldMapping);
    var split := FrequencyMatch(row, headerMap).value.offset.Some?;
    FixedTagsValid(split);
    TagsValid(fs, FixedTags(split), MappedTags(row, headerMap, FieldMapping));
    ReadRecordText(fs, rest);
  }

  // ---- when a record fails ----

  /**
   * A record fails exactly when its time, its frequency or one of its mapped columns
   * does: the fields written from a known time and a matched frequency never fail.
   */
  lemma RecordFailsIff(row: seq<Cell>, headerMap: map<Cell, nat>)
    ensures ConvertRecord(row, headerMap).Err? <==>
      UtcTime(row, headerMap).Err? || FrequencyMatch(row, headerMap).Err? || MappedFields(row, headerMap, FieldMapping).Err?
  {
    if UtcTime(row, headerMap).Ok? {
      TimeFieldsOfUtc(row, headerMap, UtcTime(row, headerMap).value);
    }
    if FrequencyMatch(row, headerMap).Ok? {
      FrequencyFieldsOfMatch(row, headerMap, FrequencyMatch(row, headerMap).value);
    }
  }

  /** An empty time cell fails the record with the missing-time error. */
  lemma MissingTimeFails(row: seq<Cell>, headerMap: map<Cell, nat>)
    requires CellOf(row, headerMap, TimeColumn) == Ok(Empty)
    ensures ConvertRecord(row, headerMap) == Err(MissingTime)
  {
  }

  /** With a good time, an empty frequency cell fails the record with the missing-frequency error. */
  lemma MissingFrequencyFails(row: seq<Cell>, headerMap: map<Cell, nat>)
    requires UtcTime(row, headerMap).Ok? && CellOf(row, headerMap, FrequencyColumn) == Ok(Empty)
    ensures ConvertRecord(row, headerMap) == Err(MissingFrequency)
  {
    TimeFieldsOfUtc(row, headerMap, UtcTime(row, headerMap).value);
  }

  /** With a good time, a frequency text the pattern does not match fails the record, quoting the text. */
  lemma UnmatchedFrequencyFails(row: seq<Cell>, headerMap: map<Cell, nat>, v: Cell)
    requires UtcTime(row, headerMap).Ok? && CellOf(row, headerMap, FrequencyColumn) == Ok(v)
    requires !v.Empty? && MatchFrequency(Str(v)).None?
    ensures ConvertRecord(row, headerMap) == Err(BadFrequency(Str(v)))
  {
    TimeFieldsOfUtc(row, headerMap, UtcTime(row, headerMap).value);
  }
}
