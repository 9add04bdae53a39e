/**
 * The PHP values the database helper receives as arguments, and the string
 * operations it applies to them: conversion to string (as `.` does),
 * `strlen`, `implode` and `array_pad`. `Split` (PHP `explode`) is not used by
 * the helper; it is the inverse against which `Join` is specified.
 */
module Php {
  import opened Results

  /** A PHP scalar: what a caller can pass as a table name, a clause, a field value or a setting. */
  datatype Scalar = Null | Bool(b: bool) | Int(i: int) | Str(s: string)

  /** PHP's conversion of a scalar to a string, as performed by the `.` operator:
      null and false give the empty string, true gives "1", a string is kept and
      an integer gives its decimal text (which reads back as that integer, by
      `DecimalRoundTrip`). */
  function Text(v: Scalar): (r: string)
    ensures v.Null? ==> r == ""
    ensures v.Bool? ==> (r == "" <==> !v.b) && (v.b ==> r == "1")
    ensures v.Int? ==> r == DecimalText(v.i)
    ensures v.Str? ==> r == v.s
  {
    match v
    case Null => ""
    case Bool(b) => if b then "1" else ""
    case Int(i) => DecimalText(i)
    case Str(s) => s
  }

  /** `strlen($v)` is non-zero, the test the helper uses for an optional clause.
      It fails exactly for null, false and ""; every integer, true and every
      other string, "0" included, is present. */
  predicate Present(v: Scalar): (r: bool)
    ensures r <==> (v.Bool? && v.b) || v.Int? || (v.Str? && v.s != "")
  {
    |Text(v)| > 0
  }

  // ---------------------------------------------------------------- decimals

  predicate IsDigit(c: char) {
    '0' <= c <= '9'
  }

  predicate AllDigits(s: string) {
    forall k :: 0 <= k < |s| ==> IsDigit(s[k])
  }

  function DigitValue(c: char): (d: nat)
    requires IsDigit(c)
    ensures d < 10
  {
    c as int - '0' as int
  }

  function DigitChar(d: nat): (c: char)
    requires d < 10
    ensures IsDigit(c) && DigitValue(c) == d
  {
    ('0' as int + d) as char
  }

  /** The decimal digits of `n`, most significant first, without leading zeros. */
  function Digits(n: nat): (s: string)
    ensures |s| > 0 && AllDigits(s)
    ensures |s| > 1 ==> s[0] != '0'
    decreases n
  {
    if n < 10 then [DigitChar(n)] else Digits(n / 10) + [DigitChar(n % 10)]
  }

  /** PHP's rendering of an integer: an optional minus sign followed by its digits. */
  function DecimalText(i: int): (s: string)
    ensures |s| > 0
  {
    if i < 0 then "-" + Digits(-i) else Digits(i)
  }

  /** The number a string of digits denotes. */
  function DigitsValue(s: string): nat
    requires AllDigits(s)
    decreases |s|
  {
    if s == [] then 0 else DigitsValue(s[..|s| - 1]) * 10 + DigitValue(s[|s| - 1])
  }

  /** Reads back an integer written in decimal, with an optional minus sign. */
  function ParseDecimal(s: string): Option<int> {
    if |s| > 1 && s[0] == '-' && AllDigits(s[1..]) then Some(-(DigitsValue(s[1..]) as int))
    else if |s| > 0 && AllDigits(s) then Some(DigitsValue(s))
    else None
  }

  lemma {:induction false} DigitsRoundTrip(n: nat)
    ensures DigitsValue(Digits(n)) == n
    decreases n
  {
    if n >= 10 {
      DigitsRoundTrip(n / 10);
      var s := Digits(n);
      assert s[..|s| - 1] == Digits(n / 10);
    }
  }

  /** The text PHP produces for an integer denotes that integer. */
  lemma DecimalRoundTrip(i: int)
    ensures ParseDecimal(DecimalText(i)) == Some(i)
  {
    var s := DecimalText(i);
    if i < 0 {
      var d := Digits(-i);
      assert s == "-" + d && s[1..] == d;
      assert |s| > 1 && s[0] == '-' && AllDigits(s[1..]);
      DigitsRoundTrip(-i);
      assert ParseDecimal(s) == Some(-(DigitsValue(d) as int));
    } else {
      assert s == Digits(i) && IsDigit(s[0]);
      DigitsRoundTrip(i);
      assert ParseDecimal(s) == Some(DigitsValue(s) as int);
    }
  }

  /** An integer's text holds no character other than digits and a sign. */
  lemma DecimalTextChars(i: int, c: char)
    requires c != '-' && !IsDigit(c)
    ensures c !in DecimalText(i)
  {
  }

  // ------------------------------------------------------ implode and explode

  /** `s` starts with `p`. */
  predicate IsPrefix(p: string, s: string) {
    |p| <= |s| && s[..|p|] == p
  }

  /** `s` ends with `p`. */
  predicate IsSuffix(p: string, s: string) {
    |p| <= |s| && s[|s| - |p|..] == p
  }

  /** The combined length of a list of strings. */
  function TotalLength(parts: seq<string>): nat {
    if parts == [] then 0 else |parts[0]| + TotalLength(parts[1..])
  }

  /** PHP `implode($sep, $parts)`: the parts in order, with `sep` between
      neighbours. A single part comes back unchanged, and the text holds every
      part plus one separator per pair of neighbours. */
  function Join(sep: string, parts: seq<string>): (r: string)
    ensures |parts| == 0 ==> r == ""
    ensures |parts| == 1 ==> r == parts[0]
    ensures |parts| > 0 ==> |r| == TotalLength(parts) + (|parts| - 1) * |sep|
  {
    if |parts| == 0 then ""
    else if |parts| == 1 then parts[0]
    else
      assert (|parts| - 1) * |sep| == |sep| + (|parts| - 2) * |sep|;
      parts[0] + sep + Join(sep, parts[1..])
  }

  /** PHP `explode($sep, $s)` for a one-character separator: the maximal pieces
      of `s` between occurrences of `sep`. */
  function Split(sep: char, s: string): (parts: seq<string>)
    ensures |parts| > 0
  {
    if s == [] then [""]
    else
      var rest := Split(sep, s[1..]);
      if s[0] == sep then [""] + rest else [[s[0]] + rest[0]] + rest[1..]
  }

  lemma {:induction false} SplitSeparatorFree(sep: char, p: string, t: string)
    requires sep !in p
    ensures Split(sep, p + t) == [p + Split(sep, t)[0]] + Split(sep, t)[1..]
    decreases |p|
  {
    var rest := Split(sep, t);
    if p == [] {
      assert p + t == t;
      assert p + rest[0] == rest[0];
      assert [rest[0]] + rest[1..] == rest;
    } else {
      SplitSeparatorFree(sep, p[1..], t);
      assert (p + t)[0] == p[0] != sep;
      assert (p + t)[1..] == p[1..] + t;
      assert [p[0]] + (p[1..] + rest[0]) == p + rest[0];
    }
  }

  lemma SplitAtSeparator(sep: char, t: string)
    ensures Split(sep, [sep] + t) == [""] + Split(sep, t)
  {
  }

  /** `implode` of a non-empty list with a one-character separator loses nothing
      when no part contains the separator: splitting the joined text gives back
      the parts, in order. (With no parts `implode` gives "", which splits into
      [""].) */
  lemma {:induction false} SplitJoin(sep: char, parts: seq<string>)
    requires |parts| > 0
    requires forall k :: 0 <= k < |parts| ==> sep !in parts[k]
    ensures Split(sep, Join([sep], parts)) == parts
    decreases |parts|
  {
    if |parts| == 1 {
      SplitSeparatorFree(sep, parts[0], "");
      assert parts[0] + "" == parts[0];
    } else {
      var tail := Join([sep], parts[1..]);
      SplitJoin(sep, parts[1..]);
      SplitAtSeparator(sep, tail);
      SplitSeparatorFree(sep, parts[0], [sep] + tail);
      assert Join([sep], parts) == parts[0] + ([sep] + tail);
      assert Split(sep, [sep] + tail)[0] == "";
      assert Split(sep, [sep] + tail)[1..] == parts[1..];
      assert parts[0] + "" == parts[0];
      assert parts == [parts[0]] + parts[1..];
    }
  }

  /** PHP `array_pad([], $n, $x)`: `n` copies of `x`. */
  function Repeat(x: string, n: nat): (r: seq<string>)
    ensures |r| == n
    ensures forall k :: 0 <= k < n ==> r[k] == x
  {
    if n == 0 then [] else [x] + Repeat(x, n - 1)
  }
}
