/** Character classes, decimal digits and newline joining/splitting used by the formatter
    and the extractor. */
module Strings {

  predicate IsAsciiDigit(c: char) {
    '0' <= c <= '9'
  }

  predicate AllDigits(s: string) {
    forall i :: 0 <= i < |s| ==> IsAsciiDigit(s[i])
  }

  function DigitValue(c: char): (d: nat)
    requires IsAsciiDigit(c)
    ensures d < 10
  {
    c as int - '0' as int
  }

  function DigitChar(d: nat): (c: char)
    requires d < 10
    ensures IsAsciiDigit(c) && DigitValue(c) == d
  {
    ('0' as int + d) as char
  }

  lemma DigitCharOfValue(c: char)
    requires IsAsciiDigit(c)
    ensures DigitChar(DigitValue(c)) == c
  {
  }

  function Pow10(k: nat): (r: nat)
    ensures r >= 1
  {
    if k == 0 then 1 else 10 * Pow10(k - 1)
  }

  /** The number a string of decimal digits denotes (most significant digit first). */
  function DigitsValue(s: string): (v: nat)
    requires AllDigits(s)
    ensures v < Pow10(|s|)
    decreases |s|
  {
    if |s| == 0 then 0 else 10 * DigitsValue(s[..|s| - 1]) + DigitValue(s[|s| - 1])
  }

  lemma DigitsValueSnoc(s: string, c: char)
    requires AllDigits(s) && IsAsciiDigit(c)
    ensures AllDigits(s + [c])
    ensures DigitsValue(s + [c]) == 10 * DigitsValue(s) + DigitValue(c)
  {
    assert (s + [c])[..|s|] == s;
  }

  /** The last `width` decimal digits of `n`, zero-padded: `{:0width}` for values that fit. */
  function PadDecimal(n: nat, width: nat): (r: string)
    ensures |r| == width && AllDigits(r)
    ensures n < Pow10(width) ==> DigitsValue(r) == n
  {
    if width == 0 then []
    else
      var r := PadDecimal(n / 10, width - 1) + [DigitChar(n % 10)];
      DigitsValueSnoc(PadDecimal(n / 10, width - 1), DigitChar(n % 10));
      r
  }

  /** Reading a digit string and printing it back at the same width gives the string back. */
  lemma {:induction false} PadDecimalOfValue(s: string)
    requires AllDigits(s)
    ensures PadDecimal(DigitsValue(s), |s|) == s
    decreases |s|
  {
    if |s| > 0 {
      var init := s[..|s| - 1];
      var last := s[|s| - 1];
      PadDecimalOfValue(init);
      var v := DigitsValue(s);
      assert v == 10 * DigitsValue(init) + DigitValue(last);
      assert v / 10 == DigitsValue(init) && v % 10 == DigitValue(last);
      DigitCharOfValue(last);
      assert s == init + [last];
    }
  }

  /** Rust's `{}` rendering of an unsigned integer: decimal digits without leading zeros. */
  function DecimalText(n: nat): (r: string)
    ensures |r| >= 1 && AllDigits(r)
    ensures DigitsValue(r) == n
    ensures |r| > 1 ==> r[0] != '0'
  {
    if n < 10 then [DigitChar(n)]
    else
      var r := DecimalText(n / 10) + [DigitChar(n % 10)];
      DigitsValueSnoc(DecimalText(n / 10), DigitChar(n % 10));
      r
  }

  /** `parts` with `sep` between consecutive elements, as Rust's `join`. */
  function Join(parts: seq<string>, sep: char): string
  {
    if |parts| == 0 then []
    else if |parts| == 1 then parts[0]
    else parts[0] + [sep] + Join(parts[1..], sep)
  }

  lemma Join4(a: string, b: string, c: string, d: string, sep: char)
    ensures Join([a, b, c, d], sep) == a + [sep] + b + [sep] + c + [sep] + d
  {
    assert [c, d][1..] == [d];
    assert Join([c, d], sep) == c + [sep] + d;
    assert [b, c, d][1..] == [c, d];
    assert Join([b, c, d], sep) == b + [sep] + (c + [sep] + d);
    assert [a, b, c, d][1..] == [b, c, d];
  }

  /** The pieces of `s` between occurrences of `sep`, as Rust's `split`. */
  function Split(s: string, sep: char): (r: seq<string>)
    ensures |r| >= 1
    decreases |s|
  {
    if |s| == 0 then [[]]
    else
      var rest := Split(s[1..], sep);
      if s[0] == sep then [[]] + rest else [[s[0]] + rest[0]] + rest[1..]
  }

  lemma {:induction false} SplitNoSep(a: string, sep: char)
    requires sep !in a
    ensures Split(a, sep) == [a]
    decreases |a|
  {
    if |a| > 0 {
      assert a[0] != sep;
      assert sep !in a[1..];
      SplitNoSep(a[1..], sep);
      assert [a[0]] + a[1..] == a;
    }
  }

  lemma {:induction false} SplitAfterSep(a: string, sep: char, b: string)
    requires sep !in a
    ensures Split(a + [sep] + b, sep) == [a] + Split(b, sep)
    decreases |a|
  {
    var s := a + [sep] + b;
    if |a| == 0 {
      assert s[1..] == b;
    } else {
      assert s[0] == a[0] && a[0] != sep;
      assert s[1..] == a[1..] + [sep] + b;
      assert sep !in a[1..];
      SplitAfterSep(a[1..], sep, b);
      assert [a[0]] + a[1..] == a;
    }
  }

  predicate NoneContains(parts: seq<string>, sep: char) {
    forall k :: 0 <= k < |parts| ==> sep !in parts[k]
  }

  /** Splitting a join gives the parts back when no part contains the separator. */
  lemma {:induction false} SplitJoin(parts: seq<string>, sep: char)
    requires |parts| >= 1 && NoneContains(parts, sep)
    ensures Split(Join(parts, sep), sep) == parts
    decreases |parts|
  {
    if |parts| == 1 {
      assert sep !in parts[0];
      SplitNoSep(parts[0], sep);
    } else {
      assert sep !in parts[0];
      SplitJoin(parts[1..], sep);
      SplitAfterSep(parts[0], sep, Join(parts[1..], sep));
      assert [parts[0]] + parts[1..] == parts;
    }
  }

  lemma NotBeforeSeparator(x: string, c: char, y: string, i: nat)
    ensures i < |x| && c !in x ==> (x + [c] + y)[i] != c
  {
    if i < |x| {
      assert (x + [c] + y)[i] == x[i];
    }
  }

  /** When `c` occurs in neither `a` nor `a2`, `a + [c] + b` determines `a` and `b`. */
  lemma SplitAtFirst(a: string, b: string, a2: string, b2: string, c: char)
    requires c !in a && c !in a2
    requires a + [c] + b == a2 + [c] + b2
    ensures a == a2 && b == b2
  {
    var s := a + [c] + b;
    NotBeforeSeparator(a2, c, b2, |a|);
    NotBeforeSeparator(a, c, b, |a2|);
    assert s[|a|] == c && s[|a2|] == c;
    assert |a| == |a2|;
    assert a == s[..|a|] == a2;
    assert b == s[|a| + 1..] == b2;
  }
}
