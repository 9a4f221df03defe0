/**
 * What `demo.py` promises, and where it parts from `main.py`: the NA test in the
 * field writer, aware times, dropped frequencies, the missing header and the
 * all-or-nothing run.
 */
module DemoProperties {
  import opened Wrappers
  import opened Strings
  import opened Calendar
  import opened Cells
  import opened Adif
  import opened Frequency
  import opened MainConvert
  import opened MainProperties
  import opened DemoConvert

  // ---- write_adif_field ----

  /** Nothing is written exactly for a missing value. */
  lemma DemoFieldSkippedIff(field: string, data: Cell)
    ensures DemoFieldOutcome(field, data) == Ok(None) <==> data.Empty?
  {
  }

  /** A value is refused exactly when its trimmed text holds a line feed; the error names the tag. */
  lemma DemoNewlineRejectedIff(field: string, data: Cell)
    ensures DemoFieldOutcome(field, data).Err? <==> !data.Empty? && '\n' in Strip(Str(data))
    ensures DemoFieldOutcome(field, data).Err? ==> DemoFieldOutcome(field, data).error == NewlineInField(field)
  {
  }

  /**
   * An empty or whitespace-only text is written as `<TAG:0>`; the later writer passes
   * over the empty text instead.
   */
  lemma DemoEmptyTextWritten(field: string, s: string)
    requires AllSpace(s)
    ensures DemoFieldOutcome(field, Text(s)) == Ok(Some(Field(Upper(field), "")))
    ensures FieldOutcome(field, Text("")) == Ok(None)
  {
    StripAllSpace(s);
  }

  /** On every other value the two writers agree, apart from the name in the error. */
  lemma DemoFieldAgreesWithMain(field: string, data: Cell)
    requires !Skipped(data)
    ensures DemoFieldOutcome(field, data).Ok? <==> FieldOutcome(field, data).Ok?
    ensures DemoFieldOutcome(field, data).Ok? ==> DemoFieldOutcome(field, data).value == FieldOutcome(field, data).value
  {
  }

  /** A written field reads back, through its length prefix, as exactly the trimmed value. */
  lemma DemoFieldRoundTrip(field: string, data: Cell, rest: string)
    requires ValidTag(field) && DemoFieldOutcome(field, data).Ok? && DemoFieldOutcome(field, data).value.Some?
    ensures var f := DemoFieldOutcome(field, data).value.value;
      f.value == Strip(Str(data)) && ReadField(Emitted(Some(f)) + rest) == Some((f, rest))
  {
    UpperKeepsValidTag(field);
    ReadFieldText(DemoFieldOutcome(field, data).value.value, rest);
  }

  // ---- the time ----

  /** A naive time is read as UTC+8, as in `main.py`. */
  lemma DemoNaiveTime(row: DemoRow, t: DateTime)
    requires TimeColumn in row && row[TimeColumn] == Stamp(t, None)
    ensures DemoUtcTime(row).Ok? <==> ToUtc(t, LocalOffset).Some?
    ensures DemoUtcTime(row).Ok? ==> DemoUtcTime(row).value == ToUtc(t, LocalOffset).value
  {
  }

  /** An aware time keeps its own offset: the UTC instant is that many minutes earlier. */
  lemma DemoAwareTime(row: DemoRow, t: DateTime, o: Offset)
    requires TimeColumn in row && row[TimeColumn] == Stamp(t, Some(o))
    ensures DemoUtcTime(row).Ok? <==> ToUtc(t, o).Some?
    ensures DemoUtcTime(row).Ok? ==> MinuteNumber(DemoUtcTime(row).value) == MinuteNumber(t) - o
  {
  }

  /** So a time already in UTC is logged as it stands, where `main.py` would move it back eight hours. */
  lemma DemoUtcStampKept(row: DemoRow, t: DateTime)
    requires TimeColumn in row && row[TimeColumn] == Stamp(t, Some(0))
    ensures DemoUtcTime(row) == Ok(t)
  {
    var m := t.hour * 60 + t.minute;
    assert m / 60 == t.hour && m % 60 == t.minute;
    assert AddMinutes(t, 0) == Some(Civil(t.date, m / 60, m % 60, t.second));
  }

  // ---- the frequency ----

  /** A missing frequency prints as `nan`, which the pattern does not match. */
  lemma DemoMissingFrequencyUnmatched(row: DemoRow)
    requires FrequencyColumn in row && row[FrequencyColumn].Empty?
    ensures DemoFrequencyMatch(row).None?
  {
    assert DigitRun("nan") == 0;
  }

  /**
   * A frequency the pattern does not match writes nothing and raises nothing: the
   * record is the time fields and the mapped fields alone.
   */
  lemma DemoBadFrequencyDropped(row: DemoRow)
    requires FrequencyColumn in row && DemoFrequencyMatch(row).None?
    ensures DemoFrequencyFields(row) == Ok([])
    ensures DemoRecordFields(row).Ok? <==> DemoTimeFields(row).Ok? && DemoMappedFields(row, FieldMapping).Ok?
    ensures DemoRecordFields(row).Ok? ==>
      DemoRecordFields(row).value == DemoTimeFields(row).value + DemoMappedFields(row, FieldMapping).value
  {
    if DemoRecordFields(row).Ok? {
      assert DemoTimeFields(row).value + [] == DemoTimeFields(row).value;
    }
  }

  /** A matched frequency gives the same fields as in `main.py`. */
  lemma DemoMatchedFrequency(row: DemoRow, m: FreqMatch)
    requires FrequencyColumn in row && DemoFrequencyMatch(row) == Some(m)
    ensures m.offset.Some? ==>
      DemoFrequencyFields(row) == Ok([Field("FREQ", DecimalText(Transmit(m))), Field("FREQ_RX", DecimalText(Primary(m)))])
    ensures m.offset.None? ==> DemoFrequencyFields(row) == Ok([Field("FREQ", DecimalText(Primary(m)))])
  {
    FixedTagsUpper();
    var primary := Field("FREQ", DecimalText(Primary(m)));
    if m.offset.Some? {
      DemoSplitFrequencyFields(row, m);
      var transmit := Field("FREQ", DecimalText(Transmit(m)));
      var receive := Field("FREQ_RX", DecimalText(Primary(m)));
      AppendTwo(transmit, receive);
    } else {
      DemoPlainFrequencyFields(row, m);
      AppendOne(primary);
    }
  }

  lemma AppendOne(a: Field)
    ensures Append([], Some(a)) == [a]
  {
  }

  lemma AppendTwo(a: Field, b: Field)
    ensures Append(Append([], Some(a)), Some(b)) == [a, b]
  {
  }

  // ---- the mapped columns ----

  /** The tags the mapping contributes: every entry whose `row.get` is not a missing value, in order. */
  function DemoMappedTags(row: DemoRow, mapping: seq<(string, string)>): seq<string> {
    if mapping == [] then []
    else
      var entry := mapping[|mapping| - 1];
      DemoMappedTags(row, mapping[..|mapping| - 1]) + (if Get(row, entry.1).Empty? then [] else [Upper(entry.0)])
  }

  lemma {:induction false} DemoMappedFieldsTags(row: DemoRow, mapping: seq<(string, string)>)
    requires DemoMappedFields(row, mapping).Ok?
    ensures Tags(DemoMappedFields(row, mapping).value) == DemoMappedTags(row, mapping)
  {
    if mapping != [] {
      var i := |mapping| - 1;
      var init := mapping[..i];
      assert mapping[..i + 1] == mapping;
      DemoMappedFieldsStep(row, mapping, i);
      DemoMappedFieldsTags(row, init);
      var acc := DemoMappedFields(row, init).value;
      var o := DemoFieldOutcome(mapping[i].0, Get(row, mapping[i].1)).value;
      if o.Some? {
        assert Tags(acc + [o.value]) == Tags(acc) + [o.value.tag];
      } else {
        assert DemoMappedTags(row, init) + [] == DemoMappedTags(row, init);
      }
    }
  }

  /** A column the frame lacks reads as a missing value and is passed over. */
  lemma DemoAbsentColumnSkipped(row: DemoRow, tag: string, column: string)
    requires column !in row
    ensures DemoFieldOutcome(tag, Get(row, column)) == Ok(None)
  {
  }

  // ---- the run ----

  /** The loop fails exactly when some row fails, and then with the error of the first such row. */
  lemma {:induction false} CollectFailsIff(results: seq<Result<string, Error>>)
    ensures Collect(results).Err? <==> exists i :: 0 <= i < |results| && results[i].Err?
    ensures Collect(results).Err? ==>
      exists i :: 0 <= i < |results| && results[i].Err? && Collect(results).error == results[i].error
        && forall j :: 0 <= j < i ==> results[j].Ok?
  {
    if results != [] {
      var init := results[..|results| - 1];
      var last := |results| - 1;
      CollectFailsIff(init);
      if Collect(init).Err? {
        var i :| 0 <= i < |init| && init[i].Err? && Collect(init).error == init[i].error
          && forall j :: 0 <= j < i ==> init[j].Ok?;
        assert results[i] == init[i];
        forall j | 0 <= j < i ensures results[j].Ok? {
          assert results[j] == init[j];
        }
      } else if results[last].Err? {
        forall j | 0 <= j < last ensures results[j].Ok? {
          assert results[j] == init[j];
        }
      } else {
        forall i | 0 <= i < |results| ensures results[i].Ok? {
          if i < last {
            assert results[i] == init[i];
          }
        }
      }
    }
  }

  /** `generate_adif(df)` fails exactly when some row fails, with the error of the first such row. */
  lemma DemoGeneratedFailsIff(rows: seq<DemoRow>)
    ensures DemoGenerated(rows).Err? <==> exists i :: 0 <= i < |rows| && DemoRecord(rows[i]).Err?
    ensures DemoGenerated(rows).Err? ==>
      exists i :: 0 <= i < |rows| && DemoRecord(rows[i]).Err? && DemoGenerated(rows).error == DemoRecord(rows[i]).error
        && forall j :: 0 <= j < i ==> DemoRecord(rows[j]).Ok?
  {
    CollectFailsIff(DemoRecords(rows));
  }

  /** Texts collected from two runs of results are those of the first run, then those of the second. */
  lemma {:induction false} CollectAppend(a: seq<Result<string, Error>>, b: seq<Result<string, Error>>)
    requires Collect(a).Ok? && Collect(b).Ok?
    ensures Collect(a + b) == Ok(Collect(a).value + Collect(b).value)
    decreases |b|
  {
    if b == [] {
      assert a + b == a;
      assert Collect(a).value + [] == Collect(a).value;
    } else {
      var b' := b[..|b| - 1];
      assert (a + b)[..|a + b| - 1] == a + b';
      assert (a + b)[|a + b| - 1] == b[|b| - 1];
      CollectAppend(a, b');
      AppendAssoc(Collect(a).value, Collect(b').value, b[|b| - 1].value);
    }
  }

  lemma DemoRecordsAppend(a: seq<DemoRow>, b: seq<DemoRow>)
    ensures DemoRecords(a + b) == DemoRecords(a) + DemoRecords(b)
  {
    var x, y := DemoRecords(a + b), DemoRecords(a) + DemoRecords(b);
    forall i | 0 <= i < |x| ensures x[i] == y[i] {
      if i < |a| {
        assert (a + b)[i] == a[i];
      } else {
        assert (a + b)[i] == b[i - |a|];
      }
    }
  }

  /** Two runs of good rows give the records of the first run, then those of the second. */
  lemma DemoGeneratedAppend(a: seq<DemoRow>, b: seq<DemoRow>)
    requires DemoGenerated(a).Ok? && DemoGenerated(b).Ok?
    ensures DemoGenerated(a + b) == Ok(DemoGenerated(a).value + DemoGenerated(b).value)
  {
    DemoRecordsAppend(a, b);
    CollectAppend(DemoRecords(a), DemoRecords(b));
  }

  /** Folding a single outcome gives that outcome. */
  lemma CollectOne(r: Result<string, Error>)
    ensures Collect([r]) == r
  {
    assert [r][..0] == [];
    if r.Ok? {
      assert "" + r.value == r.value;
    }
  }

  /** There is no header: one row gives its record and nothing else. */
  lemma DemoNoHeader(row: DemoRow)
    ensures DemoGenerated([row]) == DemoRecord(row)
  {
    assert DemoRecords([row]) == [DemoRecord(row)];
    CollectOne(DemoRecord(row));
  }
}
