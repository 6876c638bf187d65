/**
 * JavaScript strings as the sequences of UTF-16 code units they are, and the
 * few string operations the pages use: `String.fromCharCode`, number-to-string
 * conversion of integers, `startsWith`, `split` and `join`.
 */
module JsText {

  /** One UTF-16 code unit, the element type of a JavaScript string. */
  newtype CodeUnit = x: int | 0 <= x < 0x1_0000

  type JsString = seq<CodeUnit>

  /**
   * The code units of a string literal. Every literal this model uses lies in
   * the Basic Multilingual Plane, where a character is its own code unit; a
   * character outside it (which would need a surrogate pair) becomes U+FFFD.
   */
  function Utf16(s: string): (r: JsString)
    ensures |r| == |s|
    ensures forall i :: 0 <= i < |s| && s[i] as int < 0x1_0000 ==> r[i] as int == s[i] as int
  {
    seq(|s|, i requires 0 <= i < |s| => if s[i] as int < 0x1_0000 then s[i] as int as CodeUnit else 0xFFFD)
  }

  /** `String.fromCharCode(n)` for an integer `n`: the argument is reduced modulo 2^16. */
  function FromCharCode(n: int): (u: CodeUnit)
    ensures 0 <= n < 0x1_0000 ==> u as int == n
    ensures (n - u as int) % 0x1_0000 == 0
  {
    (n % 0x1_0000) as CodeUnit
  }

  // ---------------------------------------------------------------------------
  // Decimal rendering of integers, as template literals and `String(n)` do it
  // for integral numbers below 10^21.

  predicate IsDigit(u: CodeUnit)
  {
    '0' as int <= u as int <= '9' as int
  }

  predicate AllDigits(s: JsString)
  {
    forall i :: 0 <= i < |s| ==> IsDigit(s[i])
  }

  function Digit(d: nat): (u: CodeUnit)
    requires d < 10
    ensures IsDigit(u) && u as int - '0' as int == d
  {
    ('0' as int + d) as CodeUnit
  }

  /**
   * A canonical decimal numeral: at least one digit, and no leading zero
   * unless the numeral is "0" itself.
   */
  predicate IsNumeral(s: JsString)
  {
    |s| >= 1 && AllDigits(s) && (|s| > 1 ==> s[0] != '0' as int as CodeUnit)
  }

  /** The shortest decimal numeral of `n`. */
  function NatToDecimal(n: nat): (r: JsString)
    ensures IsNumeral(r)
    decreases n
  {
    if n < 10 then [Digit(n)] else NatToDecimal(n / 10) + [Digit(n % 10)]
  }

  /** The value a string of digits denotes, read in base 10. */
  function DecimalValue(s: JsString): nat
    requires AllDigits(s)
  {
    if s == [] then 0 else DecimalValue(s[..|s| - 1]) * 10 + (s[|s| - 1] as int - '0' as int)
  }

  /**
   * `s` is what JavaScript prints for the integer `i`: the canonical numeral
   * of `i`, or of its magnitude after a minus sign when `i` is negative.
   */
  predicate ReadsAs(s: JsString, i: int)
  {
    if i >= 0 then IsNumeral(s) && DecimalValue(s) == i
    else |s| >= 2 && s[0] == '-' as int as CodeUnit && IsNumeral(s[1..]) && DecimalValue(s[1..]) == -i
  }

  /** The numeral of an integer, as template literals print it. */
  function IntToDecimal(i: int): (r: JsString)
    ensures i >= 0 <==> AllDigits(r)
    ensures ReadsAs(r, i)
  {
    if i < 0 then
      var r := ['-' as int as CodeUnit] + NatToDecimal(-i);
      assert !IsDigit(r[0]);
      assert r[1..] == NatToDecimal(-i);
      DecimalRoundTrip(-i);
      r
    else
      DecimalRoundTrip(i);
      NatToDecimal(i)
  }

  /** Reading back the numeral of `n` gives `n`. */
  lemma {:induction false} DecimalRoundTrip(n: nat)
    ensures DecimalValue(NatToDecimal(n)) == n
    decreases n
  {
    if n >= 10 {
      var s := NatToDecimal(n);
      assert s[..|s| - 1] == NatToDecimal(n / 10);
      DecimalRoundTrip(n / 10);
    }
  }

  /** A string of digits whose first digit is not zero denotes at least 1. */
  lemma {:induction false} LeadingDigitPositive(s: JsString)
    requires |s| >= 1 && AllDigits(s) && s[0] != '0' as int as CodeUnit
    ensures DecimalValue(s) >= 1
    decreases |s|
  {
    if |s| > 1 {
      LeadingDigitPositive(s[..|s| - 1]);
    }
  }

  /**
   * The other round trip: a canonical numeral is the numeral of its own value,
   * so value and canonical form pin each other down.
   */
  lemma {:induction false} NumeralIsCanonical(s: JsString)
    requires IsNumeral(s)
    ensures NatToDecimal(DecimalValue(s)) == s
    decreases |s|
  {
    var v := DecimalValue(s);
    var d := s[|s| - 1] as int - '0' as int;
    if |s| == 1 {
      assert s[..0] == [];
      assert [Digit(d)] == s;
    } else {
      var p := s[..|s| - 1];
      LeadingDigitPositive(p);
      NumeralIsCanonical(p);
      var w := DecimalValue(p);
      assert v == w * 10 + d && 0 <= d < 10;
      assert v / 10 == w && v % 10 == d;
      assert NatToDecimal(v) == NatToDecimal(w) + [Digit(d)];
      assert s == p + [s[|s| - 1]];
    }
  }

  /** Two canonical numerals with the same value are the same string. */
  lemma NumeralsEqualByValue(s: JsString, t: JsString)
    requires IsNumeral(s) && IsNumeral(t)
    ensures s == t <==> DecimalValue(s) == DecimalValue(t)
  {
    NumeralIsCanonical(s);
    NumeralIsCanonical(t);
  }

  /** `ReadsAs` pins the string down: two printed integers are equal exactly when the integers are. */
  lemma ReadsAsUnique(s: JsString, i: int, t: JsString, j: int)
    requires ReadsAs(s, i) && ReadsAs(t, j)
    ensures s == t <==> i == j
  {
    if i >= 0 && j >= 0 {
      NumeralsEqualByValue(s, t);
    } else if i < 0 && j < 0 {
      NumeralsEqualByValue(s[1..], t[1..]);
      if i == j {
        assert s == s[..1] + s[1..] && t == t[..1] + t[1..];
      }
    }
  }

  /** Distinct integers have distinct numerals. */
  lemma IntToDecimalInjective(i: int, j: int)
    ensures IntToDecimal(i) == IntToDecimal(j) <==> i == j
  {
    ReadsAsUnique(IntToDecimal(i), i, IntToDecimal(j), j);
  }

  // ---------------------------------------------------------------------------
  // startsWith, split, join

  /** `s.startsWith(prefix)`. */
  predicate StartsWith(s: JsString, prefix: JsString)
  {
    |prefix| <= |s| && s[..|prefix|] == prefix
  }

  /** `s.split(sep)` for a separator of one code unit: the maximal runs between separators. */
  function Split(s: JsString, sep: CodeUnit): (parts: seq<JsString>)
    ensures |parts| >= 1
    ensures forall i :: 0 <= i < |parts| ==> sep !in parts[i]
    decreases |s|
  {
    if s == [] then [[]]
    else
      var rest := Split(s[1..], sep);
      if s[0] == sep then [[]] + rest else [[s[0]] + rest[0]] + rest[1..]
  }

  /** `parts.join(sep)`. */
  function Join(parts: seq<JsString>, sep: JsString): JsString
  {
    if parts == [] then []
    else if |parts| == 1 then parts[0]
    else parts[0] + sep + Join(parts[1..], sep)
  }

  /** Joining the pieces of a split with the separator gives the original string back. */
  lemma {:induction false} JoinSplit(s: JsString, sep: CodeUnit)
    ensures Join(Split(s, sep), [sep]) == s
    decreases |s|
  {
    if s != [] {
      var rest := Split(s[1..], sep);
      JoinSplit(s[1..], sep);
      if s[0] == sep {
        assert Split(s, sep) == [[]] + rest;
        assert Join([[]] + rest, [sep]) == [sep] + Join(rest, [sep]);
      } else {
        var parts := Split(s, sep);
        assert parts == [[s[0]] + rest[0]] + rest[1..];
        if |rest| == 1 {
          assert parts == [[s[0]] + rest[0]];
        } else {
          assert parts[1..] == rest[1..];
          assert Join(rest, [sep]) == rest[0] + [sep] + Join(rest[1..], [sep]);
        }
      }
    }
  }

  /** A split yields a second piece exactly when the separator occurs. */
  lemma {:induction false} SplitHasSecond(s: JsString, sep: CodeUnit)
    ensures |Split(s, sep)| >= 2 <==> sep in s
    decreases |s|
  {
    if s != [] {
      SplitHasSecond(s[1..], sep);
      assert s == [s[0]] + s[1..];
    }
  }
}
