/**
 * The frequency cell: the prefix match of `(\d+\.\d+)(-\d+)?`, the exact
 * decimal values `float()` is meant to give the groups, and the text a
 * frequency is written with.
 */
module Frequency {
  import opened Wrappers
  import opened Strings

  /** The exact decimal `mantissa / 10^scale`. */
  datatype Decimal = Decimal(mantissa: int, scale: nat)

  /** Two decimals denote the same number. */
  predicate SameValue(x: Decimal, y: Decimal) {
    x.mantissa * Pow10(y.scale) == y.mantissa * Pow10(x.scale)
  }

  /**
   * The groups of a match: group 1 is `whole.fraction`; group 2, when present,
   * is a minus sign followed by the digits kept in `offset`.
   */
  datatype FreqMatch = FreqMatch(whole: string, fraction: string, offset: Option<string>)

  predicate WellFormed(m: FreqMatch) {
    && m.whole != [] && AllDigits(m.whole)
    && m.fraction != [] && AllDigits(m.fraction)
    && (m.offset.Some? ==> m.offset.value != [] && AllDigits(m.offset.value))
  }

  /** The matched text: `whole.fraction`, then `-offset` when group 2 took part. */
  function MatchText(m: FreqMatch): string {
    m.whole + "." + m.fraction + (match m.offset case None => "" case Some(o) => "-" + o)
  }

  /** The greedy groups end here: `rest` cannot prolong the last group or start group 2. */
  predicate StopsBefore(m: FreqMatch, rest: string) {
    && (rest != [] ==> !IsDigit(rest[0]))
    && (m.offset.None? ==> !(|rest| >= 2 && rest[0] == '-' && IsDigit(rest[1])))
  }

  /** The length of the longest run of digits at the front of `s` (a greedy `\d*`). */
  function DigitRun(s: string): (n: nat)
    ensures n <= |s| && AllDigits(s[..n]) && (n < |s| ==> !IsDigit(s[n]))
  {
    if s != [] && IsDigit(s[0]) then
      var n := 1 + DigitRun(s[1..]);
      assert s[..n] == [s[0]] + s[1..][..n - 1];
      n
    else 0
  }

  /** The optional group `(-\d+)?` tried at the front of `u`: the digits after the minus sign. */
  function OffsetGroup(u: string): Option<string> {
    if |u| >= 2 && u[0] == '-' && IsDigit(u[1]) then Some(u[1..][..DigitRun(u[1..])]) else None
  }

  /** `FREQUENCY_PATTERN.match(s)`: anchored at the start only, so trailing text is ignored. */
  function MatchFrequency(s: string): (r: Option<FreqMatch>)
    ensures r.Some? ==> WellFormed(r.value)
  {
    var a := DigitRun(s);
    if a == 0 || a == |s| || s[a] != '.' then None
    else
      var t := s[a + 1..];
      var b := DigitRun(t);
      if b == 0 then None
      else Some(FreqMatch(s[..a], t[..b], OffsetGroup(t[b..])))
  }

  lemma {:induction false} DigitRunOf(x: string, rest: string)
    requires AllDigits(x) && (rest != [] ==> !IsDigit(rest[0]))
    ensures DigitRun(x + rest) == |x|
  {
    if x == [] {
      assert x + rest == rest;
    } else {
      assert (x + rest)[1..] == x[1..] + rest;
      DigitRunOf(x[1..], rest);
    }
  }

  lemma OffsetGroupOf(o: string, rest: string)
    requires o != [] && AllDigits(o) && (rest != [] ==> !IsDigit(rest[0]))
    ensures OffsetGroup("-" + o + rest) == Some(o)
  {
    var u := "-" + o + rest;
    assert u[1..] == o + rest;
    DigitRunOf(o, rest);
    assert (o + rest)[..|o|] == o;
  }

  /** The match, once the two digit runs and the point between them are known. */
  lemma MatchFrequencyAt(s: string, a: nat, b: nat)
    requires a == DigitRun(s) && 0 < a < |s| && s[a] == '.'
    requires b == DigitRun(s[a + 1..]) && b > 0
    ensures MatchFrequency(s) == Some(FreqMatch(s[..a], s[a + 1..][..b], OffsetGroup(s[a + 1..][b..])))
  {
  }

  lemma SplitAt(s: string, p: string, rest: string)
    requires s == p + rest
    ensures |p| <= |s| && s[..|p|] == p && s[|p|..] == rest
  {
  }

  /** What follows a known head inside a text. */
  lemma AfterHead<T>(s: seq<T>, a: nat, h: seq<T>, t: seq<T>)
    requires a <= |s| && s[a..] == h + t
    ensures a + |h| <= |s| && s[a + |h|..] == t && (h != [] ==> s[a] == h[0])
  {
    assert s[a + |h|..] == s[a..][|h|..];
  }

  lemma SplitAtPoint(s: string, a: nat)
    requires a < |s| && s[a] == '.'
    ensures s == s[..a] + ("." + s[a + 1..])
  {
    assert s == s[..a] + s[a..];
    assert s[a..] == "." + s[a + 1..];
  }

  lemma SplitOffset(u: string)
    requires OffsetGroup(u).Some?
    ensures u == "-" + (OffsetGroup(u).value + u[1 + |OffsetGroup(u).value|..])
  {
    var v := u[1..];
    var c := DigitRun(v);
    assert v == v[..c] + v[c..];
    assert u == [u[0]] + v;
  }

  lemma JoinWithOffset(w: string, f: string, o: string, rest: string)
    ensures w + ("." + (f + ("-" + (o + rest)))) == MatchText(FreqMatch(w, f, Some(o))) + rest
  {
  }

  lemma JoinWithoutOffset(w: string, f: string, rest: string)
    ensures w + ("." + (f + rest)) == MatchText(FreqMatch(w, f, None)) + rest
  {
  }

  /** Behind the fraction, the optional group either takes `-digits` or leaves the text alone. */
  lemma OffsetSplit(w: string, f: string, u: string) returns (rest: string)
    requires u != [] ==> !IsDigit(u[0])
    ensures var m := FreqMatch(w, f, OffsetGroup(u));
      w + ("." + (f + u)) == MatchText(m) + rest && StopsBefore(m, rest)
  {
    if OffsetGroup(u).Some? {
      var o := OffsetGroup(u).value;
      rest := u[1 + |o|..];
      SplitOffset(u);
      JoinWithOffset(w, f, o, rest);
      var v := u[1..];
      assert rest == v[DigitRun(v)..];
    } else {
      rest := u;
      JoinWithoutOffset(w, f, u);
    }
  }

  /** A match is a well-formed prefix of the text at which the greedy groups stop. */
  lemma MatchIsPrefix(s: string)
    requires MatchFrequency(s).Some?
    ensures var m := MatchFrequency(s).value;
      && WellFormed(m)
      && |MatchText(m)| <= |s| && s[..|MatchText(m)|] == MatchText(m)
      && StopsBefore(m, s[|MatchText(m)|..])
  {
    var a := DigitRun(s);
    var t := s[a + 1..];
    var b := DigitRun(t);
    var u := t[b..];
    var w, f := s[..a], t[..b];
    MatchFrequencyAt(s, a, b);
    SplitAtPoint(s, a);
    SplitAtIndex(t, b);
    var rest := OffsetSplit(w, f, u);
    SplitAt(s, MatchText(MatchFrequency(s).value), rest);
  }

  /** Every well-formed match, followed by text where the groups stop, is found as it is. */
  lemma MatchOfText(m: FreqMatch, rest: string)
    requires WellFormed(m) && StopsBefore(m, rest)
    ensures MatchFrequency(MatchText(m) + rest) == Some(m)
  {
    var s := MatchText(m) + rest;
    var w, f := m.whole, m.fraction;
    var u: string;
    if m.offset.Some? {
      var o := m.offset.value;
      u := "-" + (o + rest);
      JoinWithOffset(w, f, o, rest);
      AppendAssoc("-", o, rest);
      OffsetGroupOf(o, rest);
    } else {
      u := rest;
      JoinWithoutOffset(w, f, rest);
    }
    var t := f + u;
    var a, b := |w|, |f|;
    SplitAt(s, w, "." + t);
    DigitRunOf(w, "." + t);
    AfterHead(s, a, ".", t);
    SplitAt(t, f, u);
    DigitRunOf(f, u);
    MatchFrequencyAt(s, a, b);
  }

  /**
   * The pattern matches exactly the texts that begin with a well-formed match
   * at which the greedy groups stop, whatever follows.
   */
  lemma MatchFrequencyIff(s: string)
    ensures MatchFrequency(s).Some? <==>
      exists m, rest :: WellFormed(m) && StopsBefore(m, rest) && s == MatchText(m) + rest
  {
    if MatchFrequency(s).Some? {
      MatchIsPrefix(s);
      var m := MatchFrequency(s).value;
      var rest := s[|MatchText(m)|..];
      assert s == MatchText(m) + rest;
    }
    if exists m, rest :: WellFormed(m) && StopsBefore(m, rest) && s == MatchText(m) + rest {
      var m, rest :| WellFormed(m) && StopsBefore(m, rest) && s == MatchText(m) + rest;
      MatchOfText(m, rest);
    }
  }

  /** `float(match.group(1))`, taken exactly. */
  function Primary(m: FreqMatch): Decimal
    requires WellFormed(m)
  {
    DigitsValueAppend(m.whole, m.fraction);
    Decimal(DigitsValue(m.whole + m.fraction), |m.fraction|)
  }

  /** `primary + float(match.group(2))`: the group carries the minus sign, so the offset is subtracted. */
  function Transmit(m: FreqMatch): Decimal
    requires WellFormed(m) && m.offset.Some?
  {
    var p := Primary(m);
    Decimal(p.mantissa - DigitsValue(m.offset.value) * Pow10(p.scale), p.scale)
  }

  // ---- writing a frequency ----

  /** Drops trailing zeros, keeping at least one digit. */
  function DropTrailingZeros(s: string): (r: string)
    requires s != []
    ensures r != [] && |r| <= |s| && r == s[..|r|]
    ensures forall i :: |r| <= i < |s| ==> s[i] == '0'
    ensures |r| > 1 ==> r[|r| - 1] != '0'
  {
    if |s| > 1 && s[|s| - 1] == '0' then DropTrailingZeros(s[..|s| - 1]) else s
  }

  /** The digits of `|mantissa|`, with zeros in front so that at least one stands before the point. */
  function MantissaDigits(d: Decimal): (r: string)
    ensures |r| > d.scale && AllDigits(r)
  {
    var a := if d.mantissa < 0 then -d.mantissa else d.mantissa;
    var n := NatToString(a);
    if |n| > d.scale then n else Pad(a, d.scale + 1)
  }

  /**
   * The text of a frequency, as Python prints a float whose shortest form is
   * this decimal: an optional minus sign, the integer part, a point and the
   * fraction without trailing zeros (at least one digit).
   */
  function DecimalText(d: Decimal): string
    requires d.scale >= 1
  {
    var digits := MantissaDigits(d);
    var point := |digits| - d.scale;
    (if d.mantissa < 0 then "-" else "") + digits[..point] + "." + DropTrailingZeros(digits[point..])
  }

  /** A frequency text is never blank at either end, and holds no line feed. */
  lemma DecimalTextPlain(d: Decimal)
    requires d.scale >= 1
    ensures var s := DecimalText(d);
      s != [] && !IsSpace(s[0]) && !IsSpace(s[|s| - 1]) && '\n' !in s
  {
    var s := DecimalText(d);
    var digits := MantissaDigits(d);
    var point := |digits| - d.scale;
    var sign := if d.mantissa < 0 then "-" else "";
    var w := digits[..point];
    var f := DropTrailingZeros(digits[point..]);
    assert s == sign + w + "." + f;
    assert AllDigits(f) by {
      forall i | 0 <= i < |f| ensures IsDigit(f[i]) { assert f[i] == digits[point + i]; }
    }
    assert s[|s| - 1] == f[|f| - 1];
    assert s[0] == '-' || s[0] == w[0];
    NotSpace(s[0]);
    NotSpace(s[|s| - 1]);
    forall i | 0 <= i < |s| ensures s[i] != '\n' {
      if i < |sign| {
      } else if i < |sign| + |w| {
        assert s[i] == w[i - |sign|];
      } else if i == |sign| + |w| {
      } else {
        assert s[i] == f[i - |sign| - |w| - 1];
      }
    }
  }

  lemma Pow10Add(i: nat, j: nat)
    ensures Pow10(i + j) == Pow10(i) * Pow10(j)
    decreases i
  {
    if i > 0 {
      Pow10Add(i - 1, j);
    }
  }

  lemma Pow10Monotone(i: nat, j: nat)
    requires i <= j
    ensures Pow10(i) <= Pow10(j)
    decreases j
  {
    if i < j {
      Pow10Monotone(i, j - 1);
    }
  }

  /** `str(n)` has just enough digits: `n < 10^len`. */
  lemma {:induction false} NatToStringBound(n: nat)
    ensures n < Pow10(|NatToString(n)|)
  {
    if n >= 10 {
      NatToStringBound(n / 10);
    }
  }

  /** The mantissa digits denote the magnitude of the mantissa. */
  lemma MantissaDigitsValue(d: Decimal)
    ensures DigitsValue(MantissaDigits(d)) == if d.mantissa < 0 then -d.mantissa else d.mantissa
  {
    var a := if d.mantissa < 0 then -d.mantissa else d.mantissa;
    var n := NatToString(a);
    if |n| > d.scale {
      NatToStringValue(a);
    } else {
      NatToStringBound(a);
      Pow10Monotone(|n|, d.scale + 1);
      PadValue(a, d.scale + 1);
    }
  }

  lemma {:induction false} ZerosValue(z: string)
    requires forall i :: 0 <= i < |z| ==> z[i] == '0'
    ensures AllDigits(z) && DigitsValue(z) == 0
  {
    if z != [] {
      ZerosValue(z[..|z| - 1]);
    }
  }

  /** Group 1 of the written text: the integer digits and the fraction without trailing zeros. */
  function WrittenGroups(d: Decimal): (m: FreqMatch)
    requires d.scale >= 1
    ensures WellFormed(m) && m.offset.None?
  {
    var digits := MantissaDigits(d);
    var point := |digits| - d.scale;
    var frac := digits[point..];
    var f := DropTrailingZeros(frac);
    assert AllDigits(f) by {
      forall i | 0 <= i < |f| ensures IsDigit(f[i]) { assert f[i] == frac[i]; }
    }
    FreqMatch(digits[..point], f, None)
  }

  lemma DecimalTextGroups(d: Decimal)
    requires d.scale >= 1 && d.mantissa >= 0
    ensures DecimalText(d) == MatchText(WrittenGroups(d)) + ""
  {
  }

  /** The mantissa's digits are group 1 of the written text followed by the dropped zeros. */
  lemma WrittenGroupsSplit(d: Decimal)
    requires d.scale >= 1 && d.mantissa >= 0
    ensures var m := WrittenGroups(d);
      var digits := MantissaDigits(d);
      var k := |m.whole + m.fraction|;
      k <= |digits| && digits == (m.whole + m.fraction) + digits[k..]
      && |m.fraction| <= d.scale && |digits| - k == d.scale - |m.fraction|
      && AllDigits(m.whole + m.fraction)
      && forall i :: k <= i < |digits| ==> digits[i] == '0'
  {
    var digits := MantissaDigits(d);
    var point := |digits| - d.scale;
    var w := digits[..point];
    var frac := digits[point..];
    var f := DropTrailingZeros(frac);
    assert digits == (w + f) + frac[|f|..];
    assert AllDigits(w + f) by {
      forall i | 0 <= i < |w + f| ensures IsDigit((w + f)[i]) { assert (w + f)[i] == digits[i]; }
    }
    forall i | |w + f| <= i < |digits| ensures digits[i] == '0' {
      assert digits[i] == frac[i - point];
    }
  }

  /** Group 1 of the written text, followed by the zeros dropped from it, spells the mantissa. */
  lemma WrittenGroupsDigits(d: Decimal)
    requires d.scale >= 1 && d.mantissa >= 0
    ensures var m := WrittenGroups(d);
      |m.fraction| <= d.scale
      && DigitsValue(m.whole + m.fraction) * Pow10(d.scale - |m.fraction|) == d.mantissa
  {
    WrittenGroupsSplit(d);
    var m := WrittenGroups(d);
    var digits := MantissaDigits(d);
    var g := m.whole + m.fraction;
    var z := digits[|g|..];
    ZerosValue(z);
    DigitsValueAppend(g, z);
    MantissaDigitsValue(d);
    assert DigitsValue(digits) == DigitsValue(g) * Pow10(|z|) + DigitsValue(z);
  }

  lemma MulAssoc(x: int, y: int, z: int)
    ensures (x * y) * z == x * (y * z)
  {
  }

  /** Group 1 of the written text has the value of the decimal. */
  lemma WrittenGroupsValue(d: Decimal)
    requires d.scale >= 1 && d.mantissa >= 0
    ensures SameValue(Primary(WrittenGroups(d)), d)
  {
    var m := WrittenGroups(d);
    WrittenGroupsDigits(d);
    var mant := DigitsValue(m.whole + m.fraction);
    var k := |m.fraction|;
    var e := d.scale - k;
    assert Primary(m) == Decimal(mant, k);
    Pow10Add(e, k);
    ScaleUp(mant, Pow10(e), Pow10(k), d.mantissa);
  }

  lemma ScaleUp(x: int, a: int, b: int, y: int)
    requires x * a == y
    ensures x * (a * b) == y * b
  {
    MulAssoc(x, a, b);
  }

  /**
   * A non-negative frequency is written as a text the frequency pattern matches
   * in full, without group 2, and whose group 1 has the same value.
   */
  lemma DecimalTextReadsBack(d: Decimal)
    requires d.scale >= 1 && d.mantissa >= 0
    ensures var s := DecimalText(d);
      && MatchFrequency(s).Some?
      && MatchText(MatchFrequency(s).value) == s
      && MatchFrequency(s).value.offset.None?
      && SameValue(Primary(MatchFrequency(s).value), d)
  {
    DecimalTextGroups(d);
    MatchOfText(WrittenGroups(d), "");
    WrittenGroupsValue(d);
  }
}
