/**
 * The ADI text the converter writes: `<NAME:LEN>DATA` data specifiers, one per
 * line, each record closed by `<EOR>` and a blank line; a reader for that
 * syntax that trusts the length prefix; the fixed column mapping; and the
 * text buffer both variants write into.
 */
module Adif {
  import opened Wrappers
  import opened Strings

  /** One data specifier: the tag name and the (already trimmed) data. */
  datatype Field = Field(tag: string, value: string)

  /** Why a row (or, for `MissingRequiredColumn`, the whole sheet) cannot be converted. */
  datatype Error =
    | MissingColumn(name: string)            // header map has no entry for a column that is read
    | CellOutOfRange(index: nat)             // the row is shorter than the header map says
    | MissingTime                            // the time cell is empty
    | NotADateTime                           // the time cell holds no date-time
    | DateOutOfRange                         // the UTC instant leaves years 1..9999
    | MissingFrequency                       // the frequency cell is empty
    | BadFrequency(text: string)             // the frequency text does not start with digits.digits
    | NewlineInField(name: string)           // a trimmed value still contains a line feed
    | MissingRequiredColumn(name: string)    // the header row lacks a required column

  /** A tag the reader can delimit: it contains neither `:` nor `>`. */
  predicate ValidTag(tag: string) {
    ':' !in tag && '>' !in tag
  }

  /** `<TAG:LEN>DATA` followed by a line feed, LEN counting characters. */
  function FieldText(f: Field): string {
    "<" + f.tag + ":" + NatToString(|f.value|) + ">" + f.value + "\n"
  }

  /** The fields in order, one per line. */
  function FieldsText(fs: seq<Field>): string {
    if fs == [] then [] else FieldsText(fs[..|fs| - 1]) + FieldText(fs[|fs| - 1])
  }

  const EndOfRecord := "<EOR>\n\n"

  /** One record: its fields, then the end-of-record marker and a blank line. */
  function RecordText(fs: seq<Field>): string {
    FieldsText(fs) + EndOfRecord
  }

  /** The first position at or after `from` that holds `c`. */
  function IndexOf(s: string, c: char, from: nat): (r: Option<nat>)
    ensures r.Some? ==> from <= r.value < |s| && s[r.value] == c
    decreases |s| - from
  {
    if from >= |s| then None else if s[from] == c then Some(from) else IndexOf(s, c, from + 1)
  }

  /**
   * Reads one data specifier from the front of `s`: the tag up to the first `:`,
   * the decimal length up to the next `>`, exactly that many characters of data
   * and the line feed behind them. Returns the field and the text after it.
   */
  function ReadField(s: string): (r: Option<(Field, string)>)
    ensures r.Some? ==> |r.value.1| < |s| && r.value.1 == s[|s| - |r.value.1|..]
  {
    if |s| == 0 || s[0] != '<' then None
    else
      match IndexOf(s, ':', 1)
      case None => None
      case Some(colon) =>
        match IndexOf(s, '>', colon + 1)
        case None => None
        case Some(close) =>
          var digits := s[colon + 1..close];
          if digits == [] || !AllDigits(digits) then None
          else
            var n := DigitsValue(digits);
            if close + 1 + n >= |s| || s[close + 1 + n] != '\n' then None
            else Some((Field(s[1..colon], s[close + 1..close + 1 + n]), s[close + 2 + n..]))
  }

  /** Reads data specifiers up to and including the end-of-record marker. */
  function ReadRecord(s: string): Option<(seq<Field>, string)>
    decreases |s|
  {
    if |s| >= |EndOfRecord| && s[..|EndOfRecord|] == EndOfRecord then Some(([], s[|EndOfRecord|..]))
    else
      match ReadField(s)
      case None => None
      case Some((f, rest)) =>
        match ReadRecord(rest)
        case None => None
        case Some((fs, after)) => Some(([f] + fs, after))
  }

  /** `IndexOf` finds the first occurrence: a `c` at `k` with none between `from` and `k`. */
  lemma {:induction false} IndexOfFirst(s: string, c: char, from: nat, k: nat)
    requires from <= k < |s| && s[k] == c
    requires forall j :: from <= j < k ==> s[j] != c
    ensures IndexOf(s, c, from) == Some(k)
    decreases k - from
  {
    if from < k {
      IndexOfFirst(s, c, from + 1, k);
    }
  }

  /** The first `c` at or after `from` in `x + y` is the head of `y` when `x[from..]` has none. */
  lemma IndexOfJoin(x: string, y: string, c: char, from: nat)
    requires from <= |x| && c !in x[from..] && y != [] && y[0] == c
    ensures IndexOf(x + y, c, from) == Some(|x|)
  {
    var s := x + y;
    forall k | from <= k < |x| ensures s[k] != c {
      assert s[k] == x[from..][k - from];
    }
    assert s[|x|] == c;
    IndexOfFirst(s, c, from, |x|);
  }

  /** What `ReadField` returns once the delimiters and the data have been located. */
  lemma ReadFieldAt(s: string, f: Field, rest: string, colon: nat, close: nat)
    requires |s| > 0 && s[0] == '<'
    requires IndexOf(s, ':', 1) == Some(colon) && IndexOf(s, '>', colon + 1) == Some(close)
    requires s[1..colon] == f.tag
    requires s[colon + 1..close] != [] && AllDigits(s[colon + 1..close]) && DigitsValue(s[colon + 1..close]) == |f.value|
    requires close + 1 + |f.value| < |s| && s[close + 1..close + 1 + |f.value|] == f.value
    requires s[close + 1 + |f.value|] == '\n' && s[close + 2 + |f.value|..] == rest
    ensures ReadField(s) == Some((f, rest))
  {
  }

  /** In a written field the tag runs from position 1 to the first `:`. */
  lemma FieldTextColon(f: Field, rest: string, colon: nat)
    requires ValidTag(f.tag) && colon == 1 + |f.tag|
    ensures var s := FieldText(f) + rest;
      IndexOf(s, ':', 1) == Some(colon) && s[1..colon] == f.tag
  {
    var head := "<" + f.tag;
    var s := FieldText(f) + rest;
    var after := ":" + NatToString(|f.value|) + ">" + f.value + "\n" + rest;
    assert s == head + after;
    assert head[1..] == f.tag;
    IndexOfJoin(head, after, ':', 1);
  }

  /** The length digits run from behind the `:` to the first `>` after it. */
  lemma FieldTextClose(f: Field, rest: string, colon: nat, close: nat)
    requires colon == 1 + |f.tag| && close == colon + 1 + |NatToString(|f.value|)|
    ensures var s := FieldText(f) + rest;
      IndexOf(s, '>', colon + 1) == Some(close) && s[colon + 1..close] == NatToString(|f.value|)
  {
    var digits := NatToString(|f.value|);
    var mid := "<" + f.tag + ":" + digits;
    var s := FieldText(f) + rest;
    var after := ">" + f.value + "\n" + rest;
    assert s == mid + after;
    assert mid[colon + 1..] == digits;
    assert '>' !in digits;
    IndexOfJoin(mid, after, '>', colon + 1);
  }

  /** Behind the `>` come exactly `LEN` characters of data, the line feed, and what follows. */
  lemma FieldTextData(f: Field, rest: string, close: nat)
    requires close == 2 + |f.tag| + |NatToString(|f.value|)|
    ensures var s := FieldText(f) + rest; var n := |f.value|;
      close + 1 + n < |s| && s[close + 1..close + 1 + n] == f.value && s[close + 1 + n] == '\n' && s[close + 2 + n..] == rest
  {
    var n := |f.value|;
    var mid := "<" + f.tag + ":" + NatToString(n) + ">";
    var s := FieldText(f) + rest;
    var tail := f.value + "\n" + rest;
    assert s == mid + tail;
    assert s[|mid|..] == tail;
  }

  lemma FieldTextStart(f: Field, rest: string)
    ensures var s := FieldText(f) + rest; |s| > 0 && s[0] == '<'
  {
    var s := FieldText(f) + rest;
    assert s == "<" + (f.tag + ":" + NatToString(|f.value|) + ">" + f.value + "\n" + rest);
  }

  /** Where the reader finds the delimiters of a written field, and what lies between them. */
  lemma FieldTextLayout(f: Field, rest: string) returns (colon: nat, close: nat)
    requires ValidTag(f.tag)
    ensures var s := FieldText(f) + rest;
      && |s| > 0 && s[0] == '<'
      && IndexOf(s, ':', 1) == Some(colon) && IndexOf(s, '>', colon + 1) == Some(close)
      && s[1..colon] == f.tag
      && s[colon + 1..close] != [] && AllDigits(s[colon + 1..close]) && DigitsValue(s[colon + 1..close]) == |f.value|
      && close + 1 + |f.value| < |s| && s[close + 1..close + 1 + |f.value|] == f.value
      && s[close + 1 + |f.value|] == '\n' && s[close + 2 + |f.value|..] == rest
  {
    var digits := NatToString(|f.value|);
    colon := 1 + |f.tag|;
    close := colon + 1 + |digits|;
    FieldTextStart(f, rest);
    FieldTextColon(f, rest, colon);
    FieldTextClose(f, rest, colon, close);
    FieldTextData(f, rest, close);
    NatToStringValue(|f.value|);
  }

  /** A written field reads back as exactly the same tag and data: the length prefix is right. */
  lemma ReadFieldText(f: Field, rest: string)
    requires ValidTag(f.tag)
    ensures ReadField(FieldText(f) + rest) == Some((f, rest))
  {
    var colon, close := FieldTextLayout(f, rest);
    ReadFieldAt(FieldText(f) + rest, f, rest, colon, close);
  }

  /** No field text can be mistaken for the end-of-record marker. */
  lemma FieldIsNotEndOfRecord(f: Field, rest: string)
    requires ValidTag(f.tag)
    ensures var s := FieldText(f) + rest; !(|s| >= |EndOfRecord| && s[..|EndOfRecord|] == EndOfRecord)
  {
    var s := FieldText(f) + rest;
    if |f.tag| >= 4 {
      assert s[4] == f.tag[3];
      assert f.tag[3] != '>';
    } else {
      assert s[1 + |f.tag|] == ':';
    }
  }

  lemma {:induction false} FieldsTextCons(f: Field, fs: seq<Field>)
    ensures FieldsText([f] + fs) == FieldText(f) + FieldsText(fs)
    decreases |fs|
  {
    if fs != [] {
      var all := [f] + fs;
      assert all[..|all| - 1] == [f] + fs[..|fs| - 1];
      FieldsTextCons(f, fs[..|fs| - 1]);
    } else {
      assert [f] + fs == [f];
      assert [f][..0] == [];
    }
  }

  /** Writing two runs of fields one after the other writes their concatenation. */
  lemma {:induction false} FieldsTextConcat(a: seq<Field>, b: seq<Field>)
    ensures FieldsText(a + b) == FieldsText(a) + FieldsText(b)
    decreases |b|
  {
    if b == [] {
      assert a + b == a;
    } else {
      var ab := a + b;
      assert ab[..|ab| - 1] == a + b[..|b| - 1];
      assert ab[|ab| - 1] == b[|b| - 1];
      FieldsTextConcat(a, b[..|b| - 1]);
      var x, y, z := FieldsText(a), FieldsText(b[..|b| - 1]), FieldText(b[|b| - 1]);
      calc {
        FieldsText(ab);
        FieldsText(a + b[..|b| - 1]) + z;
        (x + y) + z;
        { assert (x + y) + z == x + (y + z); }
        x + (y + z);
        x + FieldsText(b);
      }
    }
  }

  /** A written record reads back as exactly its fields, in order, and nothing more. */
  lemma {:induction false} ReadRecordText(fs: seq<Field>, rest: string)
    requires forall i :: 0 <= i < |fs| ==> ValidTag(fs[i].tag)
    ensures ReadRecord(RecordText(fs) + rest) == Some((fs, rest))
    decreases |fs|
  {
    if fs == [] {
      assert RecordText(fs) + rest == EndOfRecord + rest;
      assert (EndOfRecord + rest)[..|EndOfRecord|] == EndOfRecord;
      assert (EndOfRecord + rest)[|EndOfRecord|..] == rest;
    } else {
      var tail := fs[1..];
      assert fs == [fs[0]] + tail;
      FieldsTextCons(fs[0], tail);
      var after := RecordText(tail) + rest;
      assert RecordText(fs) + rest == FieldText(fs[0]) + after;
      FieldIsNotEndOfRecord(fs[0], after);
      ReadFieldText(fs[0], after);
      ReadRecordText(tail, rest);
    }
  }

  // ---- the fixed column mapping ----

  const CallColumn := "呼号"
  const TimeColumn := "时间"
  const FrequencyColumn := "频率"

  /** ADIF tag -> spreadsheet column, in the order the fields are written. */
  const FieldMapping: seq<(string, string)> := [
    ("CALL", "呼号"),
    ("MODE", "模式"),
    ("RST_RCVD", "对方信号"),
    ("RST_SENT", "己方信号"),
    ("RIG", "对方设备"),
    ("ANTENNA", "对方天馈"),
    ("RX_PWR", "对方功率"),
    ("QTH", "对方QTH"),
    ("MY_RIG", "己方设备"),
    ("MY_ANTENNA", "己方天馈"),
    ("TX_PWR", "己方功率"),
    ("MY_CITY", "己方QTH"),
    ("COMMENTS", "补充")
  ]

  /** `dict.get` on a list of pairs: the value of the last pair with that key. */
  function Lookup(pairs: seq<(string, string)>, key: string): (r: Option<string>)
    ensures r.None? <==> forall i :: 0 <= i < |pairs| ==> pairs[i].0 != key
    ensures r.Some? ==> exists i :: 0 <= i < |pairs| && pairs[i] == (key, r.value)
  {
    if pairs == [] then None
    else if pairs[|pairs| - 1].0 == key then Some(pairs[|pairs| - 1].1)
    else Lookup(pairs[..|pairs| - 1], key)
  }

  /** `FIELD_MAPPING.get(field, field)`: the column a tag comes from, else the tag itself. */
  function ColumnOrTag(field: string): string {
    match Lookup(FieldMapping, field)
    case Some(column) => column
    case None => field
  }

  // ---- the output stream ----

  /** An in-memory text stream (`io.StringIO`) that only ever grows at the end. */
  class OutputBuffer {
    var text: string

    constructor ()
      ensures text == []
    {
      text := [];
    }

    method Write(s: string)
      modifies this
      ensures text == old(text) + s
    {
      text := text + s;
    }
  }
}
