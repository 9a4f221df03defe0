/**
 * The converter of `main.py`: the field writer, the per-row record converter
 * (UTC+8 clock shift, frequency split, mapped columns) and the batch driver
 * that writes the header and keeps going past bad rows.
 */
module MainConvert {
  import opened Wrappers
  import opened Strings
  import opened Calendar
  import opened Cells
  import opened Adif
  import opened Frequency

  /** `LOCAL_TIMEZONE`: every time cell is read as UTC+8. */
  const LocalOffset: Offset := 480

  // ---- write_adif_field ----

  /** The values the writer passes over: `None` and the empty string (checked before trimming). */
  predicate Skipped(data: Cell) {
    data.Empty? || data == Text("")
  }

  /** What `write_adif_field` makes of one value: nothing, one field, or the newline error. */
  function FieldOutcome(field: string, data: Cell): Result<Option<Field>, Error> {
    if Skipped(data) then Ok(None)
    else
      var s := Strip(Str(data));
      if '\n' in s then Err(NewlineInField(ColumnOrTag(field)))
      else Ok(Some(Field(Upper(field), s)))
  }

  /** A value that is not blank at either end and has no line break is written unchanged. */
  predicate Plain(s: string) {
    s != [] && !IsSpace(s[0]) && !IsSpace(s[|s| - 1]) && '\n' !in s
  }

  lemma PlainFieldOutcome(tag: string, s: string, data: Cell)
    requires data == Text(s) || data == Number(s)
    requires Plain(s)
    ensures FieldOutcome(tag, data) == Ok(Some(Field(Upper(tag), s)))
  {
    StripUnpadded(s);
  }

  lemma DigitsPlain(s: string)
    requires s != [] && AllDigits(s)
    ensures Plain(s)
  {
    NotSpace(s[0]);
    NotSpace(s[|s| - 1]);
    forall i | 0 <= i < |s|
      ensures s[i] != '\n'
    {
      assert IsDigit(s[i]);
    }
  }

  /** The date and time texts of a UTC stamp are always written unchanged. */
  lemma TimeTextsPlain(t: DateTime)
    ensures Plain(DateText(t)) && Plain(HourMinuteText(t))
  {
    var y, m, d := Pad(t.date.year, 4), Pad(t.date.month, 2), Pad(t.date.day, 2);
    assert DateText(t) == y + m + d;
    DigitsPlain(DateText(t));
    var h, n := Pad(t.hour, 2), Pad(t.minute, 2);
    assert HourMinuteText(t) == h + n;
    DigitsPlain(HourMinuteText(t));
  }

  /** The text an outcome appends to the stream. */
  function Emitted(o: Option<Field>): string {
    match o
    case None => ""
    case Some(f) => FieldText(f)
  }

  /** `write_adif_field(output, field, data)`; a raised error leaves the stream as it was. */
  method WriteAdifField(output: OutputBuffer, field: string, data: Cell) returns (err: Option<Error>)
    modifies output
    ensures FieldOutcome(field, data).Err? ==>
      err == Some(FieldOutcome(field, data).error) && output.text == old(output.text)
    ensures FieldOutcome(field, data).Ok? ==>
      err == None && output.text == old(output.text) + Emitted(FieldOutcome(field, data).value)
  {
    err := None;
    if data != Empty && data != Text("") {
      var s := Strip(Str(data));
      if '\n' in s {
        err := Some(NewlineInField(ColumnOrTag(field)));
        return;
      }
      output.Write("<" + Upper(field) + ":" + NatToString(|s|) + ">" + s + "\n");
    }
  }

  // ---- process_single_record, as a specification ----

  function Append(fs: seq<Field>, o: Option<Field>): seq<Field> {
    match o
    case None => fs
    case Some(f) => fs + [f]
  }

  /** `row[idx]`; a row shorter than the header map fails like Python's `IndexError`. */
  function CellAt(row: seq<Cell>, idx: nat): Result<Cell, Error> {
    if idx < |row| then Ok(row[idx]) else Err(CellOutOfRange(idx))
  }

  /** `row[header_map.get(column)]`; a column missing from the map cannot be indexed. */
  function CellOf(row: seq<Cell>, headerMap: map<Cell, nat>, column: string): Result<Cell, Error> {
    if Text(column) !in headerMap then Err(MissingColumn(column))
    else CellAt(row, headerMap[Text(column)])
  }

  /** The time cell with its zone replaced by UTC+8, converted to UTC. */
  function UtcTime(row: seq<Cell>, headerMap: map<Cell, nat>): Result<DateTime, Error> {
    var v :- CellOf(row, headerMap, TimeColumn);
    if v.Empty? then Err(MissingTime)
    else if !v.Stamp? then Err(NotADateTime)
    else
      match ToUtc(v.time, LocalOffset)
      case None => Err(DateOutOfRange)
      case Some(u) => Ok(u)
  }

  /** `QSO_DATE` and `TIME_ON`. */
  function TimeFields(row: seq<Cell>, headerMap: map<Cell, nat>): Result<seq<Field>, Error> {
    var utc :- UtcTime(row, headerMap);
    var date :- FieldOutcome("QSO_DATE", Text(DateText(utc)));
    var time :- FieldOutcome("TIME_ON", Text(HourMinuteText(utc)));
    Ok(Append(Append([], date), time))
  }

  /** The frequency cell, matched against `(\d+\.\d+)(-\d+)?`; an unmatched text is an error. */
  function FrequencyMatch(row: seq<Cell>, headerMap: map<Cell, nat>): (r: Result<FreqMatch, Error>)
    ensures r.Ok? ==> WellFormed(r.value)
  {
    var v :- CellOf(row, headerMap, FrequencyColumn);
    if v.Empty? then Err(MissingFrequency)
    else
      match MatchFrequency(Str(v))
      case None => Err(BadFrequency(Str(v)))
      case Some(m) => Ok(m)
  }

  /** `FREQ`, and `FREQ_RX` when the text carries an offset. */
  function FrequencyFields(row: seq<Cell>, headerMap: map<Cell, nat>): Result<seq<Field>, Error> {
    var m :- FrequencyMatch(row, headerMap);
    if m.offset.Some? then
      var tx :- FieldOutcome("FREQ", Number(DecimalText(Transmit(m))));
      var rx :- FieldOutcome("FREQ_RX", Number(DecimalText(Primary(m))));
      Ok(Append(Append([], tx), rx))
    else
      var tx :- FieldOutcome("FREQ", Number(DecimalText(Primary(m))));
      Ok(Append([], tx))
  }

  /** The fields of the mapped columns, in mapping order; columns absent from the header are passed over. */
  function MappedFields(row: seq<Cell>, headerMap: map<Cell, nat>, mapping: seq<(string, string)>): Result<seq<Field>, Error> {
    if mapping == [] then Ok([])
    else
      var acc :- MappedFields(row, headerMap, mapping[..|mapping| - 1]);
      var (tag, column) := mapping[|mapping| - 1];
      if Text(column) !in headerMap then Ok(acc)
      else
        var v :- CellAt(row, headerMap[Text(column)]);
        var o :- FieldOutcome(tag, v);
        Ok(Append(acc, o))
  }

  /** Every field of one record, in the order they are written. */
  function RecordFields(row: seq<Cell>, headerMap: map<Cell, nat>): Result<seq<Field>, Error> {
    var t :- TimeFields(row, headerMap);
    var f :- FrequencyFields(row, headerMap);
    var m :- MappedFields(row, headerMap, FieldMapping);
    Ok(t + f + m)
  }

  /** The record text of one row, or the error that makes the row be skipped. */
  function ConvertRecord(row: seq<Cell>, headerMap: map<Cell, nat>): Result<string, Error> {
    var fs :- RecordFields(row, headerMap);
    Ok(RecordText(fs))
  }

  // ---- process_single_record ----

  lemma FieldsTextAppend(fs: seq<Field>, o: Option<Field>)
    ensures FieldsText(Append(fs, o)) == FieldsText(fs) + Emitted(o)
  {
    if o.Some? {
      assert (fs + [o.value])[..|fs|] == fs;
    }
  }

  /** Once a prefix of the mapping fails, every longer prefix fails the same way. */
  lemma {:induction false} MappedFieldsErrorSticks(row: seq<Cell>, headerMap: map<Cell, nat>, mapping: seq<(string, string)>, i: nat)
    requires i <= |mapping| && MappedFields(row, headerMap, mapping[..i]).Err?
    ensures MappedFields(row, headerMap, mapping) == MappedFields(row, headerMap, mapping[..i])
    decreases |mapping| - i
  {
    if i < |mapping| {
      assert mapping[..i + 1][..i] == mapping[..i];
      MappedFieldsErrorSticks(row, headerMap, mapping, i + 1);
    } else {
      assert mapping[..i] == mapping;
    }
  }

  lemma FieldsTextAppendAfter(s0: string, fs: seq<Field>, o: Option<Field>)
    ensures s0 + FieldsText(Append(fs, o)) == (s0 + FieldsText(fs)) + Emitted(o)
  {
    FieldsTextAppend(fs, o);
    AppendAssoc(s0, FieldsText(fs), Emitted(o));
  }

  /** With a UTC stamp at hand, the two time fields are always written. */
  lemma TimeFieldsOfUtc(row: seq<Cell>, headerMap: map<Cell, nat>, u: DateTime)
    requires UtcTime(row, headerMap) == Ok(u)
    ensures TimeFields(row, headerMap)
      == Ok(Append(Append([], Some(Field(Upper("QSO_DATE"), DateText(u)))), Some(Field(Upper("TIME_ON"), HourMinuteText(u)))))
  {
    TimeTextsPlain(u);
    PlainFieldOutcome("QSO_DATE", DateText(u), Text(DateText(u)));
    PlainFieldOutcome("TIME_ON", HourMinuteText(u), Text(HourMinuteText(u)));
  }

  lemma FieldsTextOne(a: Field)
    ensures FieldsText(Append([], Some(a))) == FieldText(a)
  {
    assert Append([], Some(a)) == [a];
    assert [a][..0] == [];
  }

  lemma FieldsTextTwo(a: Field, b: Field, s0: string)
    ensures s0 + FieldsText(Append(Append([], Some(a)), Some(b))) == s0 + FieldText(a) + FieldText(b)
  {
    FieldsTextOne(a);
    FieldsTextAppend(Append([], Some(a)), Some(b));
    AppendAssoc(s0, FieldText(a), FieldText(b));
  }

  /** The text of the time fields is the two writes one after the other. */
  lemma TimeFieldsWritten(row: seq<Cell>, headerMap: map<Cell, nat>, u: DateTime, s0: string)
    requires UtcTime(row, headerMap) == Ok(u)
    ensures FieldOutcome("QSO_DATE", Text(DateText(u))) == Ok(Some(Field(Upper("QSO_DATE"), DateText(u))))
    ensures FieldOutcome("TIME_ON", Text(HourMinuteText(u))) == Ok(Some(Field(Upper("TIME_ON"), HourMinuteText(u))))
    ensures TimeFields(row, headerMap).Ok?
    ensures s0 + FieldsText(TimeFields(row, headerMap).value)
      == s0 + FieldText(Field(Upper("QSO_DATE"), DateText(u))) + FieldText(Field(Upper("TIME_ON"), HourMinuteText(u)))
  {
    TimeFieldsOfUtc(row, headerMap, u);
    TimeTextsPlain(u);
    PlainFieldOutcome("QSO_DATE", DateText(u), Text(DateText(u)));
    PlainFieldOutcome("TIME_ON", HourMinuteText(u), Text(HourMinuteText(u)));
    FieldsTextTwo(Field(Upper("QSO_DATE"), DateText(u)), Field(Upper("TIME_ON"), HourMinuteText(u)), s0);
  }

  /** With a matched frequency at hand, its fields are always written. */
  lemma FrequencyFieldsOfMatch(row: seq<Cell>, headerMap: map<Cell, nat>, m: FreqMatch)
    requires FrequencyMatch(row, headerMap) == Ok(m)
    ensures m.offset.Some? ==>
      FrequencyFields(row, headerMap) == Ok(Append(Append([], Some(Field(Upper("FREQ"), DecimalText(Transmit(m))))), Some(Field(Upper("FREQ_RX"), DecimalText(Primary(m))))))
    ensures m.offset.None? ==>
      FrequencyFields(row, headerMap) == Ok(Append([], Some(Field(Upper("FREQ"), DecimalText(Primary(m))))))
  {
    DecimalTextPlain(Primary(m));
    PlainFieldOutcome("FREQ_RX", DecimalText(Primary(m)), Number(DecimalText(Primary(m))));
    PlainFieldOutcome("FREQ", DecimalText(Primary(m)), Number(DecimalText(Primary(m))));
    if m.offset.Some? {
      DecimalTextPlain(Transmit(m));
      PlainFieldOutcome("FREQ", DecimalText(Transmit(m)), Number(DecimalText(Transmit(m))));
    }
  }

  /** With an offset, the text of the frequency fields is the `FREQ` write, then the `FREQ_RX` write. */
  lemma SplitFrequencyWritten(row: seq<Cell>, headerMap: map<Cell, nat>, m: FreqMatch, s0: string)
    requires FrequencyMatch(row, headerMap) == Ok(m) && m.offset.Some?
    ensures FieldOutcome("FREQ", Number(DecimalText(Transmit(m)))) == Ok(Some(Field(Upper("FREQ"), DecimalText(Transmit(m)))))
    ensures FieldOutcome("FREQ_RX", Number(DecimalText(Primary(m)))) == Ok(Some(Field(Upper("FREQ_RX"), DecimalText(Primary(m)))))
    ensures FrequencyFields(row, headerMap).Ok?
    ensures s0 + FieldsText(FrequencyFields(row, headerMap).value)
      == s0 + FieldText(Field(Upper("FREQ"), DecimalText(Transmit(m)))) + FieldText(Field(Upper("FREQ_RX"), DecimalText(Primary(m))))
  {
    FrequencyFieldsOfMatch(row, headerMap, m);
    DecimalTextPlain(Primary(m));
    DecimalTextPlain(Transmit(m));
    PlainFieldOutcome("FREQ", DecimalText(Transmit(m)), Number(DecimalText(Transmit(m))));
    PlainFieldOutcome("FREQ_RX", DecimalText(Primary(m)), Number(DecimalText(Primary(m))));
    FieldsTextTwo(Field(Upper("FREQ"), DecimalText(Transmit(m))), Field(Upper("FREQ_RX"), DecimalText(Primary(m))), s0);
  }

  /** Without an offset, the text of the frequency fields is the one `FREQ` write. */
  lemma PlainFrequencyWritten(row: seq<Cell>, headerMap: map<Cell, nat>, m: FreqMatch, s0: string)
    requires FrequencyMatch(row, headerMap) == Ok(m) && m.offset.None?
    ensures FieldOutcome("FREQ", Number(DecimalText(Primary(m)))) == Ok(Some(Field(Upper("FREQ"), DecimalText(Primary(m)))))
    ensures FrequencyFields(row, headerMap).Ok?
    ensures s0 + FieldsText(FrequencyFields(row, headerMap).value) == s0 + FieldText(Field(Upper("FREQ"), DecimalText(Primary(m))))
  {
    FrequencyFieldsOfMatch(row, headerMap, m);
    DecimalTextPlain(Primary(m));
    PlainFieldOutcome("FREQ", DecimalText(Primary(m)), Number(DecimalText(Primary(m))));
    FieldsTextOne(Field(Upper("FREQ"), DecimalText(Primary(m))));
  }

  /** One more entry of the mapping: its column is passed over, fails the record, or adds its field. */
  lemma MappedFieldsStep(row: seq<Cell>, headerMap: map<Cell, nat>, mapping: seq<(string, string)>, i: nat)
    requires i < |mapping| && MappedFields(row, headerMap, mapping[..i]).Ok?
    ensures var acc := MappedFields(row, headerMap, mapping[..i]).value;
      var (tag, column) := mapping[i];
      MappedFields(row, headerMap, mapping[..i + 1]) ==
        if Text(column) !in headerMap then Ok(acc)
        else if headerMap[Text(column)] >= |row| then Err(CellOutOfRange(headerMap[Text(column)]))
        else match FieldOutcome(tag, row[headerMap[Text(column)]])
          case Err(e) => Err(e)
          case Ok(o) => Ok(Append(acc, o))
  {
    assert mapping[..i + 1][..i] == mapping[..i];
  }

  /** The time part of `process_single_record`: `QSO_DATE` and `TIME_ON` in UTC. */
  method WriteTimeFields(output: OutputBuffer, row: seq<Cell>, headerMap: map<Cell, nat>) returns (err: Option<Error>)
    modifies output
    ensures TimeFields(row, headerMap).Err? ==> err == Some(TimeFields(row, headerMap).error) && output.text == old(output.text)
    ensures TimeFields(row, headerMap).Ok? ==>
      err == None && output.text == old(output.text) + FieldsText(TimeFields(row, headerMap).value)
  {
    var utc := UtcTime(row, headerMap);
    if utc.Err? {
      return Some(utc.error);
    }
    TimeFieldsWritten(row, headerMap, utc.value, output.text);
    err := WriteAdifField(output, "QSO_DATE", Text(DateText(utc.value)));
    err := WriteAdifField(output, "TIME_ON", Text(HourMinuteText(utc.value)));
  }

  /** The frequency part of `process_single_record`: `FREQ`, then `FREQ_RX` when there is an offset. */
  method WriteFrequencyFields(output: OutputBuffer, row: seq<Cell>, headerMap: map<Cell, nat>) returns (err: Option<Error>)
    modifies output
    ensures FrequencyFields(row, headerMap).Err? ==> err == Some(FrequencyFields(row, headerMap).error) && output.text == old(output.text)
    ensures FrequencyFields(row, headerMap).Ok? ==>
      err == None && output.text == old(output.text) + FieldsText(FrequencyFields(row, headerMap).value)
  {
    var m := FrequencyMatch(row, headerMap);
    if m.Err? {
      return Some(m.error);
    }
    if m.value.offset.Some? {
      SplitFrequencyWritten(row, headerMap, m.value, output.text);
      err := WriteAdifField(output, "FREQ", Number(DecimalText(Transmit(m.value))));
      err := WriteAdifField(output, "FREQ_RX", Number(DecimalText(Primary(m.value))));
    } else {
      PlainFrequencyWritten(row, headerMap, m.value, output.text);
      err := WriteAdifField(output, "FREQ", Number(DecimalText(Primary(m.value))));
    }
  }

  /** The `FIELD_MAPPING` loop of `process_single_record`. */
  method WriteMappedFields(output: OutputBuffer, row: seq<Cell>, headerMap: map<Cell, nat>) returns (err: Option<Error>)
    modifies output
    ensures MappedFields(row, headerMap, FieldMapping).Err? ==>
      err == Some(MappedFields(row, headerMap, FieldMapping).error)
    ensures MappedFields(row, headerMap, FieldMapping).Ok? ==>
      err == None && output.text == old(output.text) + FieldsText(MappedFields(row, headerMap, FieldMapping).value)
  {
    ghost var s0 := output.text;
    for i := 0 to |FieldMapping|
      invariant MappedFields(row, headerMap, FieldMapping[..i]).Ok?
      invariant output.text == s0 + FieldsText(MappedFields(row, headerMap, FieldMapping[..i]).value)
    {
      var (adifField, colName) := FieldMapping[i];
      MappedFieldsStep(row, headerMap, FieldMapping, i);
      ghost var acc := MappedFields(row, headerMap, FieldMapping[..i]).value;
      if Text(colName) in headerMap {
        var colIdx := headerMap[Text(colName)];
        if colIdx >= |row| {
          MappedFieldsErrorSticks(row, headerMap, FieldMapping, i + 1);
          return Some(CellOutOfRange(colIdx));
        }
        var value := row[colIdx];
        err := WriteAdifField(output, adifField, value);
        if err.Some? {
          MappedFieldsErrorSticks(row, headerMap, FieldMapping, i + 1);
          return;
        }
        FieldsTextAppendAfter(s0, acc, FieldOutcome(adifField, value).value);
      }
    }
    assert FieldMapping[..|FieldMapping|] == FieldMapping;
    return None;
  }

  /** `process_single_record(row, header_map)`: the record text, or the error it raises. */
  method ProcessSingleRecord(row: seq<Cell>, headerMap: map<Cell, nat>) returns (r: Result<string, Error>)
    ensures r == ConvertRecord(row, headerMap)
  {
    var recordOutput := new OutputBuffer();
    var err := WriteTimeFields(recordOutput, row, headerMap);
    if err.Some? {
      return Err(err.value);
    }
    ghost var s1 := recordOutput.text;
    err := WriteFrequencyFields(recordOutput, row, headerMap);
    if err.Some? {
      return Err(err.value);
    }
    ghost var s2 := recordOutput.text;
    err := WriteMappedFields(recordOutput, row, headerMap);
    if err.Some? {
      return Err(err.value);
    }
    ghost var t := TimeFields(row, headerMap).value;
    ghost var f := FrequencyFields(row, headerMap).value;
    ghost var m := MappedFields(row, headerMap, FieldMapping).value;
    assert s1 == FieldsText(t);
    assert s2 == s1 + FieldsText(f);
    assert recordOutput.text == s2 + FieldsText(m);
    FieldsTextConcat(t, f);
    FieldsTextConcat(t + f, m);
    assert RecordFields(row, headerMap) == Ok(t + f + m);
    recordOutput.Write(EndOfRecord);
    return Ok(recordOutput.text);
  }

  // ---- generate_adif, as a specification ----

  /** `{cell.value: idx for idx, cell in enumerate(header_row) if cell.value is not None}`. */
  function HeaderMap(header: seq<Cell>): map<Cell, nat> {
    if header == [] then map[]
    else
      var m := HeaderMap(header[..|header| - 1]);
      var c := header[|header| - 1];
      if c.Empty? then m else m[c := |header| - 1]
  }

  /** The columns every worksheet must have. */
  const RequiredColumns: seq<string> := [CallColumn, TimeColumn, FrequencyColumn]

  /** The first of `columns` the header map lacks. */
  function FirstMissing(headerMap: map<Cell, nat>, columns: seq<string>): (r: Option<string>)
    ensures r.None? <==> forall i :: 0 <= i < |columns| ==> Text(columns[i]) in headerMap
    ensures r.Some? ==>
      exists i :: 0 <= i < |columns| && columns[i] == r.value
        && Text(r.value) !in headerMap && forall j :: 0 <= j < i ==> Text(columns[j]) in headerMap
  {
    if columns == [] then None
    else if Text(columns[0]) !in headerMap then Some(columns[0])
    else
      var r := FirstMissing(headerMap, columns[1..]);
      if r.Some? then
        var i :| 0 <= i < |columns[1..]| && columns[1..][i] == r.value
          && Text(r.value) !in headerMap && forall j :: 0 <= j < i ==> Text(columns[1..][j]) in headerMap;
        assert columns[i + 1] == r.value;
        r
      else r
  }

  /** What the row loop leaves behind: the records written, and the two counters. */
  datatype Tally = Tally(text: string, successes: nat, failures: nat)

  /** The row loop over `rows`: a good row appends its record, a bad one only counts. */
  function Batch(rows: seq<seq<Cell>>, headerMap: map<Cell, nat>): Tally {
    if rows == [] then Tally("", 0, 0)
    else
      var t := Batch(rows[..|rows| - 1], headerMap);
      match ConvertRecord(rows[|rows| - 1], headerMap)
      case Ok(record) => Tally(t.text + record, t.successes + 1, t.failures)
      case Err(_) => Tally(t.text, t.successes, t.failures + 1)
  }

  const BannerLine := "ADIFConvert by BH5UQJ\n"
  const HomepageLine := "https://github.com/lingkai5wu/ADIFConvert\n"
  const VersionLine := "<ADIF_VER:5>3.1.6\n"

  /** The creation-time header line, with the time as `strftime('%Y%m%d%H%M%S')`. */
  function StampLine(now: DateTime): string {
    "<CREATED_TIMESTAMP:14>" + StampText(now) + "\n"
  }

  /** The four header lines; `now` is the creation time in UTC. */
  function HeaderText(now: DateTime): string {
    BannerLine + HomepageLine + VersionLine + StampLine(now)
  }

  /** `generate_adif(worksheet)`: the header, then the records; a missing required column fails it. */
  function Generated(header: seq<Cell>, rows: seq<seq<Cell>>, now: DateTime): Result<Tally, Error> {
    var headerMap := HeaderMap(header);
    match FirstMissing(headerMap, RequiredColumns)
    case Some(column) => Err(MissingRequiredColumn(column))
    case None =>
      var b := Batch(rows, headerMap);
      Ok(Tally(HeaderText(now) + b.text, b.successes, b.failures))
  }

  // ---- generate_adif ----

  lemma BatchStep(rows: seq<seq<Cell>>, headerMap: map<Cell, nat>, i: nat)
    requires i < |rows|
    ensures var t := Batch(rows[..i], headerMap);
      Batch(rows[..i + 1], headerMap) ==
        match ConvertRecord(rows[i], headerMap)
        case Ok(record) => Tally(t.text + record, t.successes + 1, t.failures)
        case Err(_) => Tally(t.text, t.successes, t.failures + 1)
  {
    assert rows[..i + 1][..i] == rows[..i];
  }

  /** The loop invariant of `WriteRows` carried over row `i`, whose conversion is `r`. */
  lemma BatchAdvance(s0: string, rows: seq<seq<Cell>>, headerMap: map<Cell, nat>, i: nat, r: Result<string, Error>)
    requires i < |rows| && r == ConvertRecord(rows[i], headerMap)
    ensures var t := Batch(rows[..i], headerMap);
      var u := Batch(rows[..i + 1], headerMap);
      && (r.Ok? ==> s0 + u.text == (s0 + t.text) + r.value && u.successes == t.successes + 1 && u.failures == t.failures)
      && (r.Err? ==> u == Tally(t.text, t.successes, t.failures + 1))
  {
    BatchStep(rows, headerMap, i);
    if r.Ok? {
      AppendAssoc(s0, Batch(rows[..i], headerMap).text, r.value);
    }
  }

  /** The four header lines `generate_adif` writes first. */
  method WriteHeader(output: OutputBuffer, now: DateTime)
    modifies output
    ensures output.text == old(output.text) + HeaderText(now)
  {
    ghost var s0 := output.text;
    output.Write(BannerLine);
    output.Write(HomepageLine);
    output.Write(VersionLine);
    output.Write(StampLine(now));
    AppendFour(s0, BannerLine, HomepageLine, VersionLine, StampLine(now));
  }

  /** The data-row loop of `generate_adif`: each row is converted, written when good, and counted. */
  method WriteRows(output: OutputBuffer, rows: seq<seq<Cell>>, headerMap: map<Cell, nat>)
    returns (successCount: nat, errorCount: nat)
    modifies output
    ensures output.text == old(output.text) + Batch(rows, headerMap).text
    ensures successCount == Batch(rows, headerMap).successes
    ensures errorCount == Batch(rows, headerMap).failures
  {
    ghost var s0 := output.text;
    successCount := 0;
    errorCount := 0;
    for i := 0 to |rows|
      invariant output.text == s0 + Batch(rows[..i], headerMap).text
      invariant successCount == Batch(rows[..i], headerMap).successes
      invariant errorCount == Batch(rows[..i], headerMap).failures
    {
      var record := ProcessSingleRecord(rows[i], headerMap);
      BatchAdvance(s0, rows, headerMap, i, record);
      if record.Ok? {
        output.Write(record.value);
        successCount := successCount + 1;
      } else {
        errorCount := errorCount + 1;
      }
    }
    TakeAll(rows);
  }

  /**
   * `generate_adif(worksheet)`, with the worksheet given as its header row and data rows and
   * the clock reading as `now`; the counters are returned beside the text.
   */
  method GenerateAdif(header: seq<Cell>, rows: seq<seq<Cell>>, now: DateTime) returns (r: Result<Tally, Error>)
    ensures r == Generated(header, rows, now)
  {
    var output := new OutputBuffer();
    WriteHeader(output, now);
    assert output.text == HeaderText(now);
    var headerMap := HeaderMap(header);
    for k := 0 to |RequiredColumns|
      invariant forall j :: 0 <= j < k ==> Text(RequiredColumns[j]) in headerMap
    {
      if Text(RequiredColumns[k]) !in headerMap {
        return Err(MissingRequiredColumn(RequiredColumns[k]));
      }
    }
    assert FirstMissing(headerMap, RequiredColumns).None?;
    var successCount, errorCount := WriteRows(output, rows, headerMap);
    return Ok(Tally(output.text, successCount, errorCount));
  }
}
