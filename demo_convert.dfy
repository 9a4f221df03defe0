/**
 * The earlier converter of `demo.py`: the same record syntax, but the cells of a
 * row are looked up by column name, only NA values are passed over, an aware time
 * keeps its own zone, an unreadable frequency is dropped, there is no header, and
 * the first error abandons the whole output.
 */
module DemoConvert {
  import opened Wrappers
  import opened Strings
  import opened Calendar
  import opened Cells
  import opened Adif
  import opened Frequency
  import opened MainConvert

  /** A data-frame row: the cells by column name (`row[name]`, `row.get(name)`). */
  type DemoRow = map<string, Cell>

  // ---- write_adif_field ----

  /** What the `pd.notna` variant of `write_adif_field` makes of one value; the error names the tag. */
  function DemoFieldOutcome(field: string, data: Cell): Result<Option<Field>, Error> {
    if data.Empty? then Ok(None)
    else
      var s := Strip(Str(data));
      if '\n' in s then Err(NewlineInField(field))
      else Ok(Some(Field(Upper(field), s)))
  }

  lemma DemoPlainFieldOutcome(tag: string, s: string, data: Cell)
    requires data == Text(s) || data == Number(s)
    requires Plain(s)
    ensures DemoFieldOutcome(tag, data) == Ok(Some(Field(Upper(tag), s)))
  {
    StripUnpadded(s);
  }

  /** `write_adif_field(output, field, data)` with the NA test; a raised error leaves the stream as it was. */
  method WriteDemoField(output: OutputBuffer, field: string, data: Cell) returns (err: Option<Error>)
    modifies output
    ensures DemoFieldOutcome(field, data).Err? ==>
      err == Some(DemoFieldOutcome(field, data).error) && output.text == old(output.text)
    ensures DemoFieldOutcome(field, data).Ok? ==>
      err == None && output.text == old(output.text) + Emitted(DemoFieldOutcome(field, data).value)
  {
    err := None;
    if !data.Empty? {
      var s := Strip(Str(data));
      if '\n' in s {
        err := Some(NewlineInField(field));
        return;
      }
      output.Write("<" + Upper(field) + ":" + NatToString(|s|) + ">" + s + "\n");
    }
  }

  // ---- one row, as a specification ----

  /** `str()` of a frame cell: a missing value is the float NaN, printed `nan`. */
  function DemoStr(c: Cell): string {
    if c.Empty? then "nan" else Str(c)
  }

  /** `row.get(name)`: an absent column reads as a missing value. */
  function Get(row: DemoRow, column: string): Cell {
    if column in row then row[column] else Empty
  }

  /** The time cell in UTC: a naive time is taken as UTC+8, an aware one keeps its own offset. */
  function DemoUtcTime(row: DemoRow): Result<DateTime, Error> {
    if TimeColumn !in row then Err(MissingColumn(TimeColumn))
    else
      var v := row[TimeColumn];
      if v.Empty? then Err(MissingTime)
      else if !v.Stamp? then Err(NotADateTime)
      else
        var offset := match v.zone case None => LocalOffset case Some(o) => o;
        match ToUtc(v.time, offset)
        case None => Err(DateOutOfRange)
        case Some(u) => Ok(u)
  }

  function DemoTimeFields(row: DemoRow): Result<seq<Field>, Error> {
    var utc :- DemoUtcTime(row);
    var date :- DemoFieldOutcome("QSO_DATE", Text(DateText(utc)));
    var time :- DemoFieldOutcome("TIME_ON", Text(HourMinuteText(utc)));
    Ok(Append(Append([], date), time))
  }

  /** The frequency text of the row against `(\d+\.\d+)(-\d+)?`. */
  function DemoFrequencyMatch(row: DemoRow): (r: Option<FreqMatch>)
    requires FrequencyColumn in row
    ensures r.Some? ==> WellFormed(r.value)
  {
    MatchFrequency(DemoStr(row[FrequencyColumn]))
  }

  /** `FREQ` and `FREQ_RX` as in `main.py`, except that a text the pattern does not match writes nothing. */
  function DemoFrequencyFields(row: DemoRow): Result<seq<Field>, Error> {
    if FrequencyColumn !in row then Err(MissingColumn(FrequencyColumn))
    else
      match DemoFrequencyMatch(row)
      case None => Ok([])
      case Some(m) =>
        if m.offset.Some? then
          var tx :- DemoFieldOutcome("FREQ", Number(DecimalText(Transmit(m))));
          var rx :- DemoFieldOutcome("FREQ_RX", Number(DecimalText(Primary(m))));
          Ok(Append(Append([], tx), rx))
        else
          var tx :- DemoFieldOutcome("FREQ", Number(DecimalText(Primary(m))));
          Ok(Append([], tx))
  }

  /** Every entry of the mapping is tried, in order, on `row.get(column)`. */
  function DemoMappedFields(row: DemoRow, mapping: seq<(string, string)>): Result<seq<Field>, Error> {
    if mapping == [] then Ok([])
    else
      var acc :- DemoMappedFields(row, mapping[..|mapping| - 1]);
      var (tag, column) := mapping[|mapping| - 1];
      var o :- DemoFieldOutcome(tag, Get(row, column));
      Ok(Append(acc, o))
  }

  function DemoRecordFields(row: DemoRow): Result<seq<Field>, Error> {
    var t :- DemoTimeFields(row);
    var f :- DemoFrequencyFields(row);
    var m :- DemoMappedFields(row, FieldMapping);
    Ok(t + f + m)
  }

  /** The record one row adds to the output, or the error that aborts the run. */
  function DemoRecord(row: DemoRow): Result<string, Error> {
    var fs :- DemoRecordFields(row);
    Ok(RecordText(fs))
  }

  /** The outcome of each row, in row order. */
  function DemoRecords(rows: seq<DemoRow>): (r: seq<Result<string, Error>>)
    ensures |r| == |rows| && forall i :: 0 <= i < |rows| ==> r[i] == DemoRecord(rows[i])
  {
    seq(|rows|, i requires 0 <= i < |rows| => DemoRecord(rows[i]))
  }

  /** The loop without recovery: the texts one after the other, or the first error met. */
  function Collect(results: seq<Result<string, Error>>): Result<string, Error> {
    if results == [] then Ok("")
    else
      var acc :- Collect(results[..|results| - 1]);
      var record :- results[|results| - 1];
      Ok(acc + record)
  }

  /** `generate_adif(df)`: the records of all rows, or the error of the first row that fails. */
  function DemoGenerated(rows: seq<DemoRow>): Result<string, Error> {
    Collect(DemoRecords(rows))
  }

  // ---- helper facts for the writing methods ----

  lemma DemoTimeFieldsWritten(row: DemoRow, u: DateTime, s0: string)
    requires DemoUtcTime(row) == Ok(u)
    ensures DemoFieldOutcome("QSO_DATE", Text(DateText(u))) == Ok(Some(Field(Upper("QSO_DATE"), DateText(u))))
    ensures DemoFieldOutcome("TIME_ON", Text(HourMinuteText(u))) == Ok(Some(Field(Upper("TIME_ON"), HourMinuteText(u))))
    ensures DemoTimeFields(row)
      == Ok(Append(Append([], Some(Field(Upper("QSO_DATE"), DateText(u)))), Some(Field(Upper("TIME_ON"), HourMinuteText(u)))))
    ensures s0 + FieldsText(DemoTimeFields(row).value)
      == s0 + FieldText(Field(Upper("QSO_DATE"), DateText(u))) + FieldText(Field(Upper("TIME_ON"), HourMinuteText(u)))
  {
    TimeTextsPlain(u);
    DemoPlainFieldOutcome("QSO_DATE", DateText(u), Text(DateText(u)));
    DemoPlainFieldOutcome("TIME_ON", HourMinuteText(u), Text(HourMinuteText(u)));
    FieldsTextTwo(Field(Upper("QSO_DATE"), DateText(u)), Field(Upper("TIME_ON"), HourMinuteText(u)), s0);
  }

  /** The frequency values are always written unchanged, whatever the match. */
  lemma DemoFrequencyOutcomes(m: FreqMatch)
    requires WellFormed(m)
    ensures DemoFieldOutcome("FREQ", Number(DecimalText(Primary(m)))) == Ok(Some(Field(Upper("FREQ"), DecimalText(Primary(m)))))
    ensures DemoFieldOutcome("FREQ_RX", Number(DecimalText(Primary(m)))) == Ok(Some(Field(Upper("FREQ_RX"), DecimalText(Primary(m)))))
    ensures m.offset.Some? ==>
      DemoFieldOutcome("FREQ", Number(DecimalText(Transmit(m)))) == Ok(Some(Field(Upper("FREQ"), DecimalText(Transmit(m)))))
  {
    DecimalTextPlain(Primary(m));
    DemoPlainFieldOutcome("FREQ", DecimalText(Primary(m)), Number(DecimalText(Primary(m))));
    DemoPlainFieldOutcome("FREQ_RX", DecimalText(Primary(m)), Number(DecimalText(Primary(m))));
    if m.offset.Some? {
      DecimalTextPlain(Transmit(m));
      DemoPlainFieldOutcome("FREQ", DecimalText(Transmit(m)), Number(DecimalText(Transmit(m))));
    }
  }

  lemma DemoSplitFrequencyFields(row: DemoRow, m: FreqMatch)
    requires FrequencyColumn in row && DemoFrequencyMatch(row) == Some(m) && m.offset.Some?
    ensures DemoFrequencyFields(row)
      == Ok(Append(Append([], Some(Field(Upper("FREQ"), DecimalText(Transmit(m))))), Some(Field(Upper("FREQ_RX"), DecimalText(Primary(m))))))
  {
    DemoFrequencyOutcomes(m);
  }

  lemma DemoPlainFrequencyFields(row: DemoRow, m: FreqMatch)
    requires FrequencyColumn in row && DemoFrequencyMatch(row) == Some(m) && m.offset.None?
    ensures DemoFrequencyFields(row) == Ok(Append([], Some(Field(Upper("FREQ"), DecimalText(Primary(m))))))
  {
    DemoFrequencyOutcomes(m);
  }

  lemma DemoSplitFrequencyWritten(row: DemoRow, m: FreqMatch, s0: string)
    requires FrequencyColumn in row && DemoFrequencyMatch(row) == Some(m) && m.offset.Some?
    ensures DemoFieldOutcome("FREQ", Number(DecimalText(Transmit(m)))) == Ok(Some(Field(Upper("FREQ"), DecimalText(Transmit(m)))))
    ensures DemoFieldOutcome("FREQ_RX", Number(DecimalText(Primary(m)))) == Ok(Some(Field(Upper("FREQ_RX"), DecimalText(Primary(m)))))
    ensures DemoFrequencyFields(row).Ok?
    ensures s0 + FieldsText(DemoFrequencyFields(row).value)
      == s0 + FieldText(Field(Upper("FREQ"), DecimalText(Transmit(m)))) + FieldText(Field(Upper("FREQ_RX"), DecimalText(Primary(m))))
  {
    DemoSplitFrequencyFields(row, m);
    DecimalTextPlain(Primary(m));
    DecimalTextPlain(Transmit(m));
    DemoPlainFieldOutcome("FREQ", DecimalText(Transmit(m)), Number(DecimalText(Transmit(m))));
    DemoPlainFieldOutcome("FREQ_RX", DecimalText(Primary(m)), Number(DecimalText(Primary(m))));
    FieldsTextTwo(Field(Upper("FREQ"), DecimalText(Transmit(m))), Field(Upper("FREQ_RX"), DecimalText(Primary(m))), s0);
  }

  lemma DemoPlainFrequencyWritten(row: DemoRow, m: FreqMatch, s0: string)
    requires FrequencyColumn in row && DemoFrequencyMatch(row) == Some(m) && m.offset.None?
    ensures DemoFieldOutcome("FREQ", Number(DecimalText(Primary(m)))) == Ok(Some(Field(Upper("FREQ"), DecimalText(Primary(m)))))
    ensures DemoFrequencyFields(row).Ok?
    ensures s0 + FieldsText(DemoFrequencyFields(row).value) == s0 + FieldText(Field(Upper("FREQ"), DecimalText(Primary(m))))
  {
    DemoPlainFrequencyFields(row, m);
    DecimalTextPlain(Primary(m));
    DemoPlainFieldOutcome("FREQ", DecimalText(Primary(m)), Number(DecimalText(Primary(m))));
    FieldsTextOne(Field(Upper("FREQ"), DecimalText(Primary(m))));
  }

  lemma DemoMappedFieldsStep(row: DemoRow, mapping: seq<(string, string)>, i: nat)
    requires i < |mapping| && DemoMappedFields(row, mapping[..i]).Ok?
    ensures var acc := DemoMappedFields(row, mapping[..i]).value;
      DemoMappedFields(row, mapping[..i + 1]) ==
        match DemoFieldOutcome(mapping[i].0, Get(row, mapping[i].1))
        case Err(e) => Err(e)
        case Ok(o) => Ok(Append(acc, o))
  {
    assert mapping[..i + 1][..i] == mapping[..i];
  }

  lemma {:induction false} DemoMappedFieldsErrorSticks(row: DemoRow, mapping: seq<(string, string)>, i: nat)
    requires i <= |mapping| && DemoMappedFields(row, mapping[..i]).Err?
    ensures DemoMappedFields(row, mapping) == DemoMappedFields(row, mapping[..i])
    decreases |mapping| - i
  {
    if i < |mapping| {
      assert mapping[..i + 1][..i] == mapping[..i];
      DemoMappedFieldsErrorSticks(row, mapping, i + 1);
    } else {
      assert mapping[..i] == mapping;
    }
  }

  // ---- one row, written into the shared stream ----

  method WriteDemoTimeFields(output: OutputBuffer, row: DemoRow) returns (err: Option<Error>)
    modifies output
    ensures DemoTimeFields(row).Err? ==> err == Some(DemoTimeFields(row).error) && output.text == old(output.text)
    ensures DemoTimeFields(row).Ok? ==>
      err == None && output.text == old(output.text) + FieldsText(DemoTimeFields(row).value)
  {
    var utc := DemoUtcTime(row);
    if utc.Err? {
      return Some(utc.error);
    }
    DemoTimeFieldsWritten(row, utc.value, output.text);
    err := WriteDemoField(output, "QSO_DATE", Text(DateText(utc.value)));
    err := WriteDemoField(output, "TIME_ON", Text(HourMinuteText(utc.value)));
  }

  method WriteDemoFrequencyFields(output: OutputBuffer, row: DemoRow) returns (err: Option<Error>)
    modifies output
    ensures DemoFrequencyFields(row).Err? ==> err == Some(DemoFrequencyFields(row).error) && output.text == old(output.text)
    ensures DemoFrequencyFields(row).Ok? ==>
      err == None && output.text == old(output.text) + FieldsText(DemoFrequencyFields(row).value)
  {
    if FrequencyColumn !in row {
      return Some(MissingColumn(FrequencyColumn));
    }
    var m := DemoFrequencyMatch(row);
    err := None;
    if m.Some? {
      if m.value.offset.Some? {
        DemoSplitFrequencyWritten(row, m.value, output.text);
        err := WriteDemoField(output, "FREQ", Number(DecimalText(Transmit(m.value))));
        err := WriteDemoField(output, "FREQ_RX", Number(DecimalText(Primary(m.value))));
      } else {
        DemoPlainFrequencyWritten(row, m.value, output.text);
        err := WriteDemoField(output, "FREQ", Number(DecimalText(Primary(m.value))));
      }
    } else {
      assert output.text == old(output.text) + FieldsText([]);
    }
  }

  /** The `FIELD_MAPPING` loop of the row body. */
  method WriteDemoMappedFields(output: OutputBuffer, row: DemoRow) returns (err: Option<Error>)
    modifies output
    ensures DemoMappedFields(row, FieldMapping).Err? ==> err == Some(DemoMappedFields(row, FieldMapping).error)
    ensures DemoMappedFields(row, FieldMapping).Ok? ==>
      err == None && output.text == old(output.text) + FieldsText(DemoMappedFields(row, FieldMapping).value)
  {
    ghost var s0 := output.text;
    for i := 0 to |FieldMapping|
      invariant DemoMappedFields(row, FieldMapping[..i]).Ok?
      invariant output.text == s0 + FieldsText(DemoMappedFields(row, FieldMapping[..i]).value)
    {
      var (adifField, colName) := FieldMapping[i];
      DemoMappedFieldsStep(row, FieldMapping, i);
      ghost var acc := DemoMappedFields(row, FieldMapping[..i]).value;
      var value := Get(row, colName);
      err := WriteDemoField(output, adifField, value);
      if err.Some? {
        DemoMappedFieldsErrorSticks(row, FieldMapping, i + 1);
        return;
      }
      FieldsTextAppendAfter(s0, acc, DemoFieldOutcome(adifField, value).value);
    }
    assert FieldMapping[..|FieldMapping|] == FieldMapping;
    return None;
  }

  /** The body of the row loop: one record appended to the shared stream, or the error that ends the run. */
  method WriteDemoRecord(output: OutputBuffer, row: DemoRow) returns (err: Option<Error>)
    modifies output
    ensures DemoRecord(row).Err? ==> err == Some(DemoRecord(row).error)
    ensures DemoRecord(row).Ok? ==> err == None && output.text == old(output.text) + DemoRecord(row).value
  {
    ghost var s0 := output.text;
    err := WriteDemoTimeFields(output, row);
    if err.Some? {
      return;
    }
    ghost var s1 := output.text;
    err := WriteDemoFrequencyFields(output, row);
    if err.Some? {
      return;
    }
    ghost var s2 := output.text;
    err := WriteDemoMappedFields(output, row);
    if err.Some? {
      return;
    }
    ghost var t := DemoTimeFields(row).value;
    ghost var f := DemoFrequencyFields(row).value;
    ghost var m := DemoMappedFields(row, FieldMapping).value;
    assert s1 == s0 + FieldsText(t);
    assert s2 == s1 + FieldsText(f);
    assert output.text == s2 + FieldsText(m);
    FieldsTextConcat(t, f);
    FieldsTextConcat(t + f, m);
    AppendAssoc(s0, FieldsText(t), FieldsText(f));
    AppendAssoc(s0, FieldsText(t + f), FieldsText(m));
    assert DemoRecordFields(row) == Ok(t + f + m);
    output.Write(EndOfRecord);
    AppendAssoc(s0, FieldsText(t + f + m), EndOfRecord);
  }

  lemma CollectStep(results: seq<Result<string, Error>>, i: nat)
    requires i < |results| && Collect(results[..i]).Ok?
    ensures Collect(results[..i + 1]) ==
      match results[i]
      case Err(e) => Err(e)
      case Ok(record) => Ok(Collect(results[..i]).value + record)
  {
    assert results[..i + 1][..i] == results[..i];
  }

  lemma {:induction false} CollectErrorSticks(results: seq<Result<string, Error>>, i: nat)
    requires i <= |results| && Collect(results[..i]).Err?
    ensures Collect(results) == Collect(results[..i])
    decreases |results| - i
  {
    if i < |results| {
      assert results[..i + 1][..i] == results[..i];
      CollectErrorSticks(results, i + 1);
    } else {
      assert results[..i] == results;
    }
  }

  /** `generate_adif(df)`: one shared stream for all rows; the first error discards it. */
  method DemoGenerateAdif(rows: seq<DemoRow>) returns (r: Result<string, Error>)
    ensures r == DemoGenerated(rows)
  {
    var output := new OutputBuffer();
    ghost var results := DemoRecords(rows);
    for i := 0 to |rows|
      invariant Collect(results[..i]).Ok?
      invariant output.text == Collect(results[..i]).value
    {
      CollectStep(results, i);
      var err := WriteDemoRecord(output, rows[i]);
      if err.Some? {
        CollectErrorSticks(results, i + 1);
        return Err(err.value);
      }
    }
    assert results[..|rows|] == results;
    return Ok(output.text);
  }
}
