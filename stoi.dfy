/**
 * `std::stoi(val)` with base 10, as the configuration parser uses it for its
 * two numeric keys: `strtol` in the C locale followed by the range check to `int`.
 */
module Stoi {
  import opened Wrappers

  /** Bounds of the 32-bit `int` that `std::stoi` returns. */
  const IntMin: int := -0x8000_0000
  const IntMax: int := 0x7fff_ffff

  /** The two exceptions `std::stoi` throws. */
  datatype StoiError = InvalidArgument | OutOfRange

  /** `isspace` in the C locale: space, \t, \n, \v, \f, \r. */
  predicate IsCSpace(c: char) {
    c == ' ' || c == '\t' || c == '\n' || c == '\U{000B}' || c == '\U{000C}' || c == '\r'
  }

  predicate IsDigit(c: char) {
    '0' <= c <= '9'
  }

  predicate AllDigits(s: string) {
    forall k :: 0 <= k < |s| ==> IsDigit(s[k])
  }

  /** The number of leading characters `strtol` skips as white space. */
  function SkipSpaces(s: string, from: nat): (r: nat)
    requires from <= |s|
    ensures from <= r <= |s|
    ensures forall k :: from <= k < r ==> IsCSpace(s[k])
    ensures r < |s| ==> !IsCSpace(s[r])
    decreases |s| - from
  {
    if from < |s| && IsCSpace(s[from]) then SkipSpaces(s, from + 1) else from
  }

  /** The end of the run of decimal digits that starts at `from`. */
  function DigitEnd(s: string, from: nat): (r: nat)
    requires from <= |s|
    ensures from <= r <= |s|
    ensures forall k :: from <= k < r ==> IsDigit(s[k])
    ensures r < |s| ==> !IsDigit(s[r])
    decreases |s| - from
  {
    if from < |s| && IsDigit(s[from]) then DigitEnd(s, from + 1) else from
  }

  function Pow10(n: nat): (r: nat)
    ensures r > 0
  {
    if n == 0 then 1 else 10 * Pow10(n - 1)
  }

  /** The value of a string of decimal digits, most significant first. */
  function DigitsValue(ds: string): (r: nat)
    requires AllDigits(ds)
    ensures r < Pow10(|ds|)
  {
    if ds == [] then 0
    else 10 * DigitsValue(ds[..|ds| - 1]) + (ds[|ds| - 1] as int - '0' as int)
  }

  /**
   * `std::stoi(s)`: skip white space, read an optional sign and the longest
   * run of digits after it and ignore whatever follows; no digit at all throws
   * `invalid_argument`, a value outside `int` throws `out_of_range`.
   */
  function Parse(s: string): (r: Result<int, StoiError>)
    ensures r.Ok? ==> IntMin <= r.value <= IntMax
  {
    var i := SkipSpaces(s, 0);
    if i < |s| && s[i] == '-' then ParseDigits(s, i + 1, true)
    else if i < |s| && s[i] == '+' then ParseDigits(s, i + 1, false)
    else ParseDigits(s, i, false)
  }

  /** The digit run of `s` from `start` on, negated if a minus sign preceded it, range-checked. */
  function ParseDigits(s: string, start: nat, negative: bool): (r: Result<int, StoiError>)
    requires start <= |s|
    ensures r.Ok? ==> IntMin <= r.value <= IntMax
  {
    var e := DigitEnd(s, start);
    if e == start then Err(InvalidArgument) else SignedValue(negative, s[start..e])
  }

  /** The value of a digit run, negated when a minus sign preceded it, checked against `int`. */
  function SignedValue(negative: bool, ds: string): (r: Result<int, StoiError>)
    requires AllDigits(ds)
    ensures r.Ok? ==> IntMin <= r.value <= IntMax
  {
    var magnitude: int := DigitsValue(ds);
    var v := if negative then -magnitude else magnitude;
    if v < IntMin || v > IntMax then Err(OutOfRange) else Ok(v)
  }

  /** A number with no sign, a `-` or a `+` in front: only `-` negates it. */
  lemma ParseNumber(sign: string, ds: string, rest: string)
    requires sign == "" || sign == "-" || sign == "+"
    requires |ds| > 0 && AllDigits(ds)
    requires rest == [] || !IsDigit(rest[0])
    ensures Parse(sign + ds + rest) == SignedValue(sign == "-", ds)
  {
    var s := sign + ds + rest;
    var j := |sign|;
    assert s[0] == if sign != "" then sign[0] else ds[0];
    assert SkipSpaces(s, 0) == 0;
    assert Parse(s) == ParseDigits(s, j, sign == "-");
    ParseDigitsAt(s, j, ds, sign == "-");
  }

  /** A digit run `ds` at `start` that nothing continues parses to its signed value. */
  lemma ParseDigitsAt(s: string, start: nat, ds: string, negative: bool)
    requires start + |ds| <= |s| && s[start..start + |ds|] == ds
    requires |ds| > 0 && AllDigits(ds)
    requires start + |ds| < |s| ==> !IsDigit(s[start + |ds|])
    ensures ParseDigits(s, start, negative) == SignedValue(negative, ds)
  {
    forall k | start <= k < start + |ds| ensures IsDigit(s[k]) { assert s[k] == ds[k - start]; }
    DigitEndAt(s, start, start + |ds|);
  }

  /** The decimal digits of `n`, without leading zeros. */
  function NatDigits(n: nat): (r: string)
    ensures |r| > 0 && AllDigits(r)
  {
    if n < 10 then ['0' + n as char]
    else NatDigits(n / 10) + ['0' + (n % 10) as char]
  }

  /** The decimal text of `n` as a configuration file would hold it. */
  function Decimal(n: int): string {
    if n < 0 then "-" + NatDigits(-n) else NatDigits(n)
  }

  lemma {:induction false} DigitsValueOfNatDigits(n: nat)
    ensures DigitsValue(NatDigits(n)) == n
  {
    if n >= 10 {
      var ds := NatDigits(n);
      assert ds[..|ds| - 1] == NatDigits(n / 10);
      DigitsValueOfNatDigits(n / 10);
    }
  }

  lemma {:induction false} DigitEndAt(s: string, from: nat, to: nat)
    requires from <= to <= |s|
    requires forall k :: from <= k < to ==> IsDigit(s[k])
    requires to < |s| ==> !IsDigit(s[to])
    ensures DigitEnd(s, from) == to
    decreases |s| - from
  {
    if from < to { DigitEndAt(s, from + 1, to); }
  }

  /**
   * Round trip: the decimal text of any `int`, followed by anything that does
   * not continue the number, parses back to that value.
   */
  lemma ParseDecimal(n: int, rest: string)
    requires IntMin <= n <= IntMax
    requires rest == [] || !IsDigit(rest[0])
    ensures Parse(Decimal(n) + rest) == Ok(n)
  {
    var m: nat := if n < 0 then -n else n;
    var sign := if n < 0 then "-" else "";
    ParseNumber(sign, NatDigits(m), rest);
    assert Decimal(n) + rest == sign + NatDigits(m) + rest;
    DigitsValueOfNatDigits(m);
  }

  /** A number outside `int` is rejected with `out_of_range`, not truncated. */
  lemma ParseDecimalOutOfRange(n: int)
    requires n < IntMin || n > IntMax
    ensures Parse(Decimal(n)) == Err(OutOfRange)
  {
    var m: nat := if n < 0 then -n else n;
    ParseNumber(if n < 0 then "-" else "", NatDigits(m), "");
    assert Decimal(n) + "" == Decimal(n);
    DigitsValueOfNatDigits(m);
  }

  lemma {:induction false} SkipSpacesPrefix(ws: string, s: string, from: nat)
    requires from <= |ws|
    requires forall k :: 0 <= k < |ws| ==> IsCSpace(ws[k])
    ensures SkipSpaces(ws + s, from) == |ws| + SkipSpaces(s, 0)
    decreases |ws| - from
  {
    if from < |ws| {
      assert (ws + s)[from] == ws[from];
      SkipSpacesPrefix(ws, s, from + 1);
    } else {
      SkipSpacesShift(ws, s, 0);
    }
  }

  lemma {:induction false} SkipSpacesShift(ws: string, s: string, from: nat)
    requires from <= |s|
    ensures SkipSpaces(ws + s, |ws| + from) == |ws| + SkipSpaces(s, from)
    decreases |s| - from
  {
    if from < |s| {
      assert (ws + s)[|ws| + from] == s[from];
      if IsCSpace(s[from]) { SkipSpacesShift(ws, s, from + 1); }
    }
  }

  lemma {:induction false} DigitEndShift(ws: string, s: string, from: nat)
    requires from <= |s|
    ensures DigitEnd(ws + s, |ws| + from) == |ws| + DigitEnd(s, from)
    decreases |s| - from
  {
    if from < |s| {
      assert (ws + s)[|ws| + from] == s[from];
      if IsDigit(s[from]) { DigitEndShift(ws, s, from + 1); }
    }
  }

  lemma ParseDigitsShift(ws: string, s: string, start: nat, negative: bool)
    requires start <= |s|
    ensures ParseDigits(ws + s, |ws| + start, negative) == ParseDigits(s, start, negative)
  {
    DigitEndShift(ws, s, start);
    var e := DigitEnd(s, start);
    assert (ws + s)[|ws| + start..|ws| + e] == s[start..e];
  }

  /** Leading white space never changes what `std::stoi` returns. */
  lemma ParseSkipsLeadingSpace(ws: string, s: string)
    requires forall k :: 0 <= k < |ws| ==> IsCSpace(ws[k])
    ensures Parse(ws + s) == Parse(s)
  {
    var t := ws + s;
    var i := SkipSpaces(s, 0);
    assert SkipSpaces(t, 0) == |ws| + i by { SkipSpacesPrefix(ws, s, 0); }
    var minus := i < |s| && s[i] == '-';
    var plus := i < |s| && s[i] == '+';
    assert minus == (|ws| + i < |t| && t[|ws| + i] == '-') && plus == (|ws| + i < |t| && t[|ws| + i] == '+') by {
      if i < |s| { assert t[|ws| + i] == s[i]; }
    }
    var j := if minus || plus then i + 1 else i;
    calc {
      Parse(t);
      == { ParseAfterSpaces(t, |ws| + i, |ws| + j, minus); }
      ParseDigits(t, |ws| + j, minus);
      == { ParseDigitsShift(ws, s, j, minus); }
      ParseDigits(s, j, minus);
      == { ParseAfterSpaces(s, i, j, minus); }
      Parse(s);
    }
  }

  /** `Parse` once the white space up to `i` is skipped: the sign, then the digits. */
  lemma ParseAfterSpaces(s: string, i: nat, j: nat, negative: bool)
    requires i == SkipSpaces(s, 0)
    requires negative == (i < |s| && s[i] == '-')
    requires j == if i < |s| && (s[i] == '-' || s[i] == '+') then i + 1 else i
    ensures Parse(s) == ParseDigits(s, j, negative)
  {
  }

  /**
   * `invalid_argument` is thrown exactly when no digit follows the white space
   * and the optional sign; with at least one digit the result is a value or
   * `out_of_range`.
   */
  lemma ParseInvalidIff(s: string)
    ensures var i := SkipSpaces(s, 0);
            var j := if i < |s| && (s[i] == '+' || s[i] == '-') then i + 1 else i;
            Parse(s) == Err(InvalidArgument) <==> (j == |s| || !IsDigit(s[j]))
  {
    var i := SkipSpaces(s, 0);
    var j := if i < |s| && (s[i] == '+' || s[i] == '-') then i + 1 else i;
    var e := DigitEnd(s, j);
    assert e == j <==> (j == |s| || !IsDigit(s[j]));
  }
}
