/** String helpers the components and services share: decimal rendering of a
    non-negative number (`String(n)`, a template literal), `padStart`, and
    `s.split(sep).pop()`. */
module Text {

  predicate IsDigit(c: char) {
    '0' <= c <= '9'
  }

  predicate AllDigits(s: string) {
    forall i :: 0 <= i < |s| ==> IsDigit(s[i])
  }

  function DigitValue(c: char): (v: nat)
    requires IsDigit(c)
    ensures v < 10
  {
    c as int - '0' as int
  }

  function DigitChar(v: nat): (c: char)
    requires v < 10
    ensures IsDigit(c) && DigitValue(c) == v
  {
    ('0' as int + v) as char
  }

  /** The value of a string of ASCII digits, read most significant digit first. */
  function ParseDecimal(s: string): nat
    requires AllDigits(s)
  {
    if s == [] then 0 else ParseDecimal(s[..|s| - 1]) * 10 + DigitValue(s[|s| - 1])
  }

  /** `String(n)` for a non-negative integer: shortest decimal form, no sign. */
  function NatToString(n: nat): (s: string)
    ensures AllDigits(s) && ParseDecimal(s) == n
    ensures 1 <= |s|
    ensures n < 10 <==> |s| == 1
    ensures n < 100 ==> |s| <= 2
    ensures '.' !in s && '/' !in s
    ensures n == 0 ==> s == "0"
    ensures n > 0 ==> s[0] != '0'
  {
    if n < 10 then [DigitChar(n)]
    else
      var prefix := NatToString(n / 10);
      var s := prefix + [DigitChar(n % 10)];
      assert s[..|s| - 1] == prefix;
      assert s[0] == prefix[0];
      s
  }

  /** `s.padStart(width, fill)`: left-pad with `fill` up to `width` characters. */
  function PadStart(s: string, width: nat, fill: char): (r: string)
    ensures |r| == if |s| < width then width else |s|
    ensures r[|r| - |s|..] == s
    ensures forall i :: 0 <= i < |r| - |s| ==> r[i] == fill
  {
    var pad := if |s| < width then width - |s| else 0;
    seq(pad, _ => fill) + s
  }

  /** A leading zero does not change the value of a digit string. */
  lemma {:induction false} LeadingZero(s: string)
    requires AllDigits(s)
    ensures AllDigits(['0'] + s) && ParseDecimal(['0'] + s) == ParseDecimal(s)
    decreases |s|
  {
    var t := ['0'] + s;
    if s != [] {
      assert t[..|t| - 1] == ['0'] + s[..|s| - 1];
      LeadingZero(s[..|s| - 1]);
    }
  }

  /** Padding with '0' keeps a digit string's value. */
  lemma {:induction false} ZeroPadKeepsValue(s: string, width: nat)
    requires AllDigits(s)
    ensures AllDigits(PadStart(s, width, '0'))
    ensures ParseDecimal(PadStart(s, width, '0')) == ParseDecimal(s)
    decreases width - |s|
  {
    if |s| < width {
      LeadingZero(s);
      ZeroPadKeepsValue(['0'] + s, width);
      assert PadStart(s, width, '0') == PadStart(['0'] + s, width, '0');
    }
  }

  /** `String(n).padStart(2, '0')`: a field of at least two digits whose value is n;
      exactly two digits when n < 100, and from 10 on the plain decimal form, so a
      field longer than two characters never starts with '0'. */
  function TwoDigitField(n: nat): (r: string)
    ensures AllDigits(r) && ParseDecimal(r) == n
    ensures |r| >= 2
    ensures n < 100 ==> |r| == 2
    ensures n >= 10 ==> r == NatToString(n)
    ensures |r| > 2 ==> r[0] != '0'
  {
    ZeroPadKeepsValue(NatToString(n), 2);
    PadStart(NatToString(n), 2, '0')
  }

  /** A character absent from four strings is absent from their concatenation. */
  lemma NotInConcat(c: char, a: string, b: string, d: string, e: string)
    ensures c !in a && c !in b && c !in d && c !in e ==> c !in a + b + d + e
  {
  }

  /** `s.split(sep).pop()`: the text after the last `sep`, or all of `s` when it
      holds no `sep`. */
  function LastSegment(s: string, sep: char): (r: string)
    ensures sep !in r
    ensures |r| <= |s| && r == s[|s| - |r|..]
    ensures |r| < |s| ==> s[|s| - |r| - 1] == sep
    decreases |s|
  {
    if s == [] then []
    else if s[|s| - 1] == sep then []
    else
      var q := LastSegment(s[..|s| - 1], sep);
      SuffixExtends(s, q);
      q + [s[|s| - 1]]
  }

  /** A suffix of all but the last character, extended by that character, is a
      suffix of the whole string, and the character before it is unchanged. */
  lemma SuffixExtends(s: string, q: string)
    requires |s| > 0 && |q| < |s| && q == s[..|s| - 1][|s| - 1 - |q|..]
    ensures s[|s| - |q| - 1..] == q + [s[|s| - 1]]
    ensures |q| + 1 < |s| ==> s[|s| - |q| - 2] == s[..|s| - 1][|s| - 1 - |q| - 1]
  {
  }

  /** The segment is the whole string exactly when the string holds no separator. */
  lemma LastSegmentWhole(s: string, sep: char)
    ensures LastSegment(s, sep) == s <==> sep !in s
  {
  }

  /** The segment is empty exactly when the string is empty or ends with the separator. */
  lemma LastSegmentEmpty(s: string, sep: char)
    ensures LastSegment(s, sep) == [] <==> s == [] || s[|s| - 1] == sep
  {
  }

  /** Whatever precedes the last separator, the segment after it is recovered. */
  lemma {:induction false} LastSegmentAfter(prefix: string, sep: char, tail: string)
    requires sep !in tail
    ensures LastSegment(prefix + [sep] + tail, sep) == tail
    decreases |tail|
  {
    if tail != [] {
      var s := prefix + [sep] + tail;
      assert s[..|s| - 1] == prefix + [sep] + tail[..|tail| - 1];
      LastSegmentAfter(prefix, sep, tail[..|tail| - 1]);
    }
  }
}
