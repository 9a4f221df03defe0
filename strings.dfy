/**
 * Text primitives of Python that the converter relies on: `str.isspace`,
 * `str.strip`, ASCII `upper`/`lower`, decimal digits and their values,
 * `str(int)` and zero-padded numbers as `strftime` writes them.
 */
module Strings {

  /**
   * The code points Python's `str.isspace` accepts, as inclusive ranges: the ASCII
   * blanks and separators, NEL, NBSP and the Unicode space separators.
   */
  const SpaceRanges: seq<(int, int)> := [
    (0x09, 0x0d), (0x1c, 0x20), (0x85, 0x85), (0xa0, 0xa0), (0x1680, 0x1680),
    (0x2000, 0x200a), (0x2028, 0x2029), (0x202f, 0x202f), (0x205f, 0x205f), (0x3000, 0x3000)]

  predicate InRanges(code: int, ranges: seq<(int, int)>) {
    ranges != [] && (ranges[0].0 <= code <= ranges[0].1 || InRanges(code, ranges[1..]))
  }

  /** Python's `str.isspace` for one character (the characters `str.strip()` removes). */
  predicate IsSpace(c: char) {
    InRanges(c as int, SpaceRanges)
  }

  lemma {:induction false} InRangesBound(code: int, ranges: seq<(int, int)>)
    requires forall i :: 0 <= i < |ranges| ==> ranges[i].1 <= 0x20 || 0x85 <= ranges[i].0
    requires 0x20 < code < 0x85
    ensures !InRanges(code, ranges)
  {
    if ranges != [] {
      forall i | 0 <= i < |ranges[1..]| ensures ranges[1..][i].1 <= 0x20 || 0x85 <= ranges[1..][i].0 {
        assert ranges[1..][i] == ranges[i + 1];
      }
      InRangesBound(code, ranges[1..]);
    }
  }

  /** Printable ASCII (letters, digits, signs and the point) is never whitespace. */
  lemma NotSpace(c: char)
    requires 0x20 < c as int < 0x85
    ensures !IsSpace(c)
  {
    InRangesBound(c as int, SpaceRanges);
  }

  lemma SpaceBound(c: char)
    ensures IsSpace(c) ==> c as int <= 0x20 || 0x85 <= c as int
  {
    if 0x20 < c as int < 0x85 {
      NotSpace(c);
    }
  }

  predicate AllSpace(s: string) {
    forall i :: 0 <= i < |s| ==> IsSpace(s[i])
  }

  /** Leading whitespace removed. */
  function TrimStart(s: string): (r: string)
    ensures |r| <= |s|
  {
    if s != [] && IsSpace(s[0]) then TrimStart(s[1..]) else s
  }

  /** What `TrimStart` leaves is a suffix that starts with a non-space, behind a run of whitespace. */
  lemma {:induction false} TrimStartSplit(s: string)
    ensures var r := TrimStart(s);
      r == s[|s| - |r|..] && AllSpace(s[..|s| - |r|]) && (r != [] ==> !IsSpace(r[0]))
  {
    if s != [] && IsSpace(s[0]) {
      var r := TrimStart(s[1..]);
      TrimStartSplit(s[1..]);
      assert s[1..][|s| - 1 - |r|..] == s[|s| - |r|..];
      forall i | 0 <= i < |s| - |r|
        ensures IsSpace(s[i])
      {
        if i > 0 {
          assert s[i] == s[1..][..|s| - 1 - |r|][i - 1];
        }
      }
    }
  }

  /** Trailing whitespace removed. */
  function TrimEnd(s: string): (r: string)
    ensures |r| <= |s|
  {
    if s != [] && IsSpace(s[|s| - 1]) then TrimEnd(s[..|s| - 1]) else s
  }

  /** What `TrimEnd` leaves is a prefix that ends with a non-space, before a run of whitespace. */
  lemma {:induction false} TrimEndSplit(s: string)
    ensures var r := TrimEnd(s);
      r == s[..|r|] && AllSpace(s[|r|..]) && (r != [] ==> !IsSpace(r[|r| - 1]))
  {
    if s != [] && IsSpace(s[|s| - 1]) {
      var r := TrimEnd(s[..|s| - 1]);
      TrimEndSplit(s[..|s| - 1]);
      assert s[..|s| - 1][..|r|] == s[..|r|];
      forall i | |r| <= i < |s|
        ensures IsSpace(s[i])
      {
        if i < |s| - 1 {
          assert s[i] == s[..|s| - 1][|r|..][i - |r|];
        }
      }
    }
  }

  /** Leading whitespace in front of a text that starts with a non-space is all that `TrimStart` removes. */
  lemma {:induction false} TrimStartPadded(p: string, t: string)
    requires AllSpace(p)
    requires t != [] ==> !IsSpace(t[0])
    ensures TrimStart(p + t) == t
  {
    if p != [] {
      assert (p + t)[1..] == p[1..] + t;
      TrimStartPadded(p[1..], t);
    } else {
      assert p + t == t;
    }
  }

  /** Trailing whitespace behind a text that ends with a non-space is all that `TrimEnd` removes. */
  lemma {:induction false} TrimEndPadded(t: string, q: string)
    requires AllSpace(q)
    requires t != [] ==> !IsSpace(t[|t| - 1])
    ensures TrimEnd(t + q) == t
  {
    if q != [] {
      assert (t + q)[..|t + q| - 1] == t + q[..|q| - 1];
      TrimEndPadded(t, q[..|q| - 1]);
    } else {
      assert t + q == t;
    }
  }

  /** Python's `str.strip()` with no argument. */
  function Strip(s: string): (r: string)
    ensures |r| <= |s|
    ensures r != [] ==> !IsSpace(r[0]) && !IsSpace(r[|r| - 1])
  {
    var t := TrimStart(s);
    var r := TrimEnd(t);
    TrimStartSplit(s);
    TrimEndSplit(t);
    assert r != [] ==> r[0] == t[0];
    r
  }

  /** Stripping is determined by the core text: whitespace padding on either side is ignored. */
  lemma StripPadded(p: string, s: string, q: string)
    requires AllSpace(p) && AllSpace(q)
    requires s != [] ==> !IsSpace(s[0]) && !IsSpace(s[|s| - 1])
    ensures Strip(p + s + q) == s
  {
    if s == [] {
      assert p + s + q == (p + q) + [];
      assert AllSpace(p + q);
      TrimStartPadded(p + q, []);
    } else {
      assert p + s + q == p + (s + q);
      TrimStartPadded(p, s + q);
      TrimEndPadded(s, q);
    }
  }

  /** A value made only of whitespace strips to the empty text. */
  lemma StripAllSpace(s: string)
    requires AllSpace(s)
    ensures Strip(s) == []
  {
    StripPadded(s, [], []);
    assert s + [] + [] == s;
  }

  /** Text that neither starts nor ends with whitespace is left alone by `strip()`. */
  lemma StripUnpadded(s: string)
    requires s != [] ==> !IsSpace(s[0]) && !IsSpace(s[|s| - 1])
    ensures Strip(s) == s
  {
    StripPadded([], s, []);
    assert [] + s + [] == s;
  }

  lemma SplitAtIndex<T>(s: seq<T>, k: nat)
    requires k <= |s|
    ensures s == s[..k] + s[k..]
  {
  }

  lemma TakeAll<T>(s: seq<T>)
    ensures s[..|s|] == s
  {
  }

  /** Every text is its stripped form between two runs of whitespace. */
  lemma StripSplit(s: string) returns (p: string, q: string)
    ensures AllSpace(p) && AllSpace(q)
    ensures s == p + Strip(s) + q
  {
    var t := TrimStart(s);
    var r := TrimEnd(t);
    TrimStartSplit(s);
    TrimEndSplit(t);
    assert Strip(s) == r;
    p, q := s[..|s| - |t|], t[|r|..];
    SplitAtIndex(s, |s| - |t|);
    SplitAtIndex(t, |r|);
    AppendAssoc(p, r, q);
  }

  lemma AllSpaceConcat(a: string, b: string)
    requires AllSpace(a) && AllSpace(b)
    ensures AllSpace(a + b)
  {
    forall i | 0 <= i < |a + b| ensures IsSpace((a + b)[i]) {
      if i >= |a| {
        assert (a + b)[i] == b[i - |a|];
      }
    }
  }

  lemma Regroup<T>(p: seq<T>, a: seq<T>, b: seq<T>, c: seq<T>, q: seq<T>)
    ensures p + (a + b + c) + q == (p + a) + b + (c + q)
  {
  }

  /** Extra whitespace on either side does not change what `strip()` returns. */
  lemma StripIgnoresPadding(p: string, s: string, q: string)
    requires AllSpace(p) && AllSpace(q)
    ensures Strip(p + s + q) == Strip(s)
  {
    var p', q' := StripSplit(s);
    AllSpaceConcat(p, p');
    AllSpaceConcat(q', q);
    Regroup(p, p', Strip(s), q', q);
    StripPadded(p + p', Strip(s), q' + q);
  }

  // ---- ASCII case mapping (`str.upper` / `str.lower` on ASCII letters) ----

  function UpperChar(c: char): char {
    if 'a' <= c <= 'z' then (c as int - 32) as char else c
  }

  function LowerChar(c: char): char {
    if 'A' <= c <= 'Z' then (c as int + 32) as char else c
  }

  function Upper(s: string): (r: string)
    ensures |r| == |s| && forall i :: 0 <= i < |s| ==> r[i] == UpperChar(s[i])
  {
    seq(|s|, i requires 0 <= i < |s| => UpperChar(s[i]))
  }

  function Lower(s: string): (r: string)
    ensures |r| == |s| && forall i :: 0 <= i < |s| ==> r[i] == LowerChar(s[i])
  {
    seq(|s|, i requires 0 <= i < |s| => LowerChar(s[i]))
  }

  lemma LowerConcat(a: string, b: string)
    ensures Lower(a + b) == Lower(a) + Lower(b)
  {
  }

  lemma LowerKeepsSpace(s: string)
    requires AllSpace(s)
    ensures AllSpace(Lower(s))
  {
    forall i | 0 <= i < |s|
      ensures IsSpace(Lower(s)[i])
    {
      SpaceBound(s[i]);
    }
  }

  lemma LowerKeepsEnds(s: string)
    requires s != [] ==> !IsSpace(s[0]) && !IsSpace(s[|s| - 1])
    ensures Lower(s) != [] ==> !IsSpace(Lower(s)[0]) && !IsSpace(Lower(s)[|s| - 1])
  {
    if s != [] {
      SpaceBound(Lower(s)[0]);
      SpaceBound(Lower(s)[|s| - 1]);
    }
  }

  /** Lower-casing touches no whitespace, so it commutes with `strip()`. */
  lemma StripLower(s: string)
    ensures Strip(Lower(s)) == Lower(Strip(s))
  {
    var p, q := StripSplit(s);
    var r := Strip(s);
    LowerConcat(p + r, q);
    LowerConcat(p, r);
    LowerKeepsSpace(p);
    LowerKeepsSpace(q);
    LowerKeepsEnds(r);
    StripPadded(Lower(p), Lower(r), Lower(q));
  }

  /** A text without lower-case ASCII letters is its own upper-case form. */
  lemma UpperOfUpperCase(s: string)
    requires forall i :: 0 <= i < |s| ==> !('a' <= s[i] <= 'z')
    ensures Upper(s) == s
  {
  }

  // ---- decimal digits ----

  /** Concatenation is associative; stated once so that large contexts need not rediscover it. */
  lemma AppendAssoc<T>(a: seq<T>, b: seq<T>, c: seq<T>)
    ensures (a + b) + c == a + (b + c)
  {
  }

  lemma AppendFour<T>(s: seq<T>, a: seq<T>, b: seq<T>, c: seq<T>, d: seq<T>)
    ensures s + a + b + c + d == s + (a + b + c + d)
  {
    AppendAssoc(s, a, b);
    AppendAssoc(s, a + b, c);
    AppendAssoc(s, a + b + c, d);
  }

  predicate IsDigit(c: char) {
    '0' <= c <= '9'
  }

  predicate AllDigits(s: string) {
    forall i :: 0 <= i < |s| ==> IsDigit(s[i])
  }

  function DigitChar(d: int): (c: char)
    requires 0 <= d < 10
    ensures IsDigit(c)
  {
    ('0' as int + d) as char
  }

  function DigitValue(c: char): (d: nat)
    requires IsDigit(c)
    ensures d < 10 && DigitChar(d) == c
  {
    c as int - '0' as int
  }

  function Pow10(n: nat): (p: nat)
    ensures p >= 1
  {
    if n == 0 then 1 else 10 * Pow10(n - 1)
  }

  /** The number a string of decimal digits denotes (leading zeros allowed). */
  function DigitsValue(s: string): nat
    requires AllDigits(s)
  {
    if s == [] then 0 else DigitsValue(s[..|s| - 1]) * 10 + DigitValue(s[|s| - 1])
  }

  /** Python's `str(n)` for a non-negative integer. */
  function NatToString(n: nat): (r: string)
    ensures r != [] && AllDigits(r)
    ensures r[0] == '0' ==> n == 0
  {
    if n < 10 then [DigitChar(n)] else NatToString(n / 10) + [DigitChar(n % 10)]
  }

  /** `n` written with exactly `w` digits, zero-padded on the left (`%04d`, `%02d`). */
  function Pad(n: nat, w: nat): (r: string)
    ensures |r| == w && AllDigits(r)
  {
    if w == 0 then [] else Pad(n / 10, w - 1) + [DigitChar(n % 10)]
  }

  lemma {:induction false} NatToStringValue(n: nat)
    ensures DigitsValue(NatToString(n)) == n
  {
    var r := NatToString(n);
    if n >= 10 {
      NatToStringValue(n / 10);
      assert r[..|r| - 1] == NatToString(n / 10);
    }
  }

  lemma {:induction false} PadValue(n: nat, w: nat)
    requires n < Pow10(w)
    ensures DigitsValue(Pad(n, w)) == n
  {
    if w > 0 {
      var r := Pad(n, w);
      PadValue(n / 10, w - 1);
      assert r[..|r| - 1] == Pad(n / 10, w - 1);
    }
  }

  /** Digit strings read positionally: the left part is worth `10^|b|` times its value. */
  lemma {:induction false} DigitsValueAppend(a: string, b: string)
    requires AllDigits(a) && AllDigits(b)
    ensures AllDigits(a + b)
    ensures DigitsValue(a + b) == DigitsValue(a) * Pow10(|b|) + DigitsValue(b)
  {
    if b == [] {
      assert a + b == a;
    } else {
      var ab := a + b;
      var b' := b[..|b| - 1];
      assert ab[..|ab| - 1] == a + b';
      assert ab[|ab| - 1] == b[|b| - 1];
      DigitsValueAppend(a, b');
      var d := DigitValue(b[|b| - 1]);
      var va, vb', p := DigitsValue(a), DigitsValue(b'), Pow10(|b'|);
      var v := DigitsValue(ab);
      assert v == (va * p + vb') * 10 + d;
      assert DigitsValue(b) == vb' * 10 + d;
      var q := Pow10(|b|);
      assert q == 10 * p;
      MulShift(va, p, vb', d);
      assert v == va * q + DigitsValue(b);
    }
  }

  lemma MulShift(va: int, p: int, v: int, d: int)
    ensures (va * p + v) * 10 + d == va * (10 * p) + (v * 10 + d)
  {
  }
}
