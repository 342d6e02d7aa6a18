/** Text as both languages read and write it: splitting and joining on a separator, and numerals. */
module Text {
  import opened Options

  // ----- separators

  /** `str.split(sep)` and `strings.Split(s, sep)` for a one-character separator. */
  function Split(s: string, sep: char): (parts: seq<string>)
    ensures |parts| > 0
  {
    if s == "" then [""]
    else if s[0] == sep then [""] + Split(s[1..], sep)
    else
      var rest := Split(s[1..], sep);
      [[s[0]] + rest[0]] + rest[1..]
  }

  /** `sep.join(parts)`. */
  function Join(parts: seq<string>, sep: char): string {
    if parts == [] then ""
    else if |parts| == 1 then parts[0]
    else parts[0] + [sep] + Join(parts[1..], sep)
  }

  predicate Free(s: string, sep: char) {
    sep !in s
  }

  lemma {:induction false} SplitPartsAreFree(s: string, sep: char)
    ensures forall k :: 0 <= k < |Split(s, sep)| ==> Free(Split(s, sep)[k], sep)
  {
    if s != "" {
      SplitPartsAreFree(s[1..], sep);
      var rest := Split(s[1..], sep);
      assert Free(rest[0], sep);
    }
  }

  lemma {:induction false} JoinOfSplit(s: string, sep: char)
    ensures Join(Split(s, sep), sep) == s
  {
    if s != "" {
      var rest := Split(s[1..], sep);
      JoinOfSplit(s[1..], sep);
      if s[0] == sep {
        assert ([""] + rest)[1..] == rest;
        assert [sep] + s[1..] == s;
      } else {
        assert ([[s[0]] + rest[0]] + rest[1..])[1..] == rest[1..];
        assert [s[0]] + s[1..] == s;
      }
    }
  }

  lemma {:induction false} SplitOfFree(part: string, sep: char)
    requires Free(part, sep)
    ensures Split(part, sep) == [part]
  {
    if part != "" {
      assert part[0] in part;
      SplitOfFree(part[1..], sep);
      assert [part[0]] + part[1..] == part;
    }
  }

  lemma {:induction false} SplitAfterFree(part: string, sep: char, s: string)
    requires Free(part, sep)
    ensures Split(part + [sep] + s, sep) == [part] + Split(s, sep)
  {
    var whole := part + [sep] + s;
    if part == "" {
      assert whole[1..] == s;
    } else {
      assert part[0] in part;
      SplitAfterFree(part[1..], sep, s);
      assert whole[1..] == part[1..] + [sep] + s;
      assert [part[0]] + part[1..] == part;
    }
  }

  lemma {:induction false} SplitOfJoin(parts: seq<string>, sep: char)
    requires parts != [] && forall k :: 0 <= k < |parts| ==> Free(parts[k], sep)
    ensures Split(Join(parts, sep), sep) == parts
  {
    if |parts| == 1 {
      SplitOfFree(parts[0], sep);
    } else {
      SplitOfJoin(parts[1..], sep);
      SplitAfterFree(parts[0], sep, Join(parts[1..], sep));
    }
  }

  /** How often the character occurs. */
  function Occurrences(s: string, c: char): nat {
    if s == "" then 0 else Occurrences(s[1..], c) + if s[0] == c then 1 else 0
  }

  /** There is one part more than there are separators. */
  lemma {:induction false} PartsAreCounted(s: string, sep: char)
    ensures |Split(s, sep)| == Occurrences(s, sep) + 1
  {
    if s != "" {
      PartsAreCounted(s[1..], sep);
    }
  }

  // ----- numerals

  const DIGITS := "0123456789abcdef"

  function DigitValue(c: char): Option<nat> {
    if '0' <= c <= '9' then Some(c as nat - '0' as nat)
    else if 'a' <= c <= 'f' then Some(c as nat - 'a' as nat + 10)
    else if 'A' <= c <= 'F' then Some(c as nat - 'A' as nat + 10)
    else None
  }

  /** All digits of `n` but the last. */
  function High(n: nat, base: nat): (high: nat)
    requires base >= 2
    ensures n > 0 ==> high < n
  {
    var high := n / base;
    DoubleAtLeast(high, base, n % base, n);
    high
  }

  lemma DoubleAtLeast(high: int, base: nat, low: nat, n: nat)
    requires base >= 2 && high * base + low == n && low < base
    ensures high >= 0 && high + high <= n
  {
    if high >= 0 {
      Times(high, base - 2);
    }
  }

  lemma Times(a: nat, b: nat)
    ensures a * b >= 0
  {
  }

  function Low(n: nat, base: nat): (low: nat)
    requires base >= 2
    ensures low < base
  {
    n % base
  }

  lemma HighAndLow(n: nat, base: nat)
    requires base >= 2
    ensures High(n, base) * base + Low(n, base) == n
  {
  }

  /** The shortest numeral of `n`, as `str(n)` or `'{:x}'.format(n)` print it. */
  function Numeral(n: nat, base: nat): (s: string)
    requires 2 <= base <= 16
    ensures s != ""
  {
    if n < base then [DIGITS[n]] else Numeral(High(n, base), base) + [DIGITS[Low(n, base)]]
  }

  function Decimal(n: nat): string {
    Numeral(n, 10)
  }

  function DigitsValue(s: string, base: nat): Option<nat> {
    if s == "" then Some(0)
    else
      var high, low := DigitsValue(s[..|s| - 1], base), DigitValue(s[|s| - 1]);
      if high.None? || low.None? || low.value >= base then None else Some(high.value * base + low.value)
  }

  /** The number an unsigned numeral denotes, if it is one. */
  function ParseNumeral(s: string, base: nat): Option<nat> {
    if s == "" then None else DigitsValue(s, base)
  }

  lemma DigitRoundTrip(d: nat)
    requires d < 16
    ensures DigitValue(DIGITS[d]) == Some(d)
  {
    assert DIGITS[0] == '0' && DIGITS[1] == '1' && DIGITS[2] == '2' && DIGITS[3] == '3' && DIGITS[4] == '4';
    assert DIGITS[5] == '5' && DIGITS[6] == '6' && DIGITS[7] == '7' && DIGITS[8] == '8' && DIGITS[9] == '9';
    assert DIGITS[10] == 'a' && DIGITS[11] == 'b' && DIGITS[12] == 'c';
    assert DIGITS[13] == 'd' && DIGITS[14] == 'e' && DIGITS[15] == 'f';
  }

  /** Upper-case digits are read like lower-case ones. */
  lemma DigitsReadInEitherCase(k: nat)
    requires k < 6
    ensures DigitValue("ABCDEF"[k]) == DigitValue("abcdef"[k]) == Some(10 + k)
  {
    assert "ABCDEF"[0] == 'A' && "ABCDEF"[1] == 'B' && "ABCDEF"[2] == 'C' && "ABCDEF"[3] == 'D';
    assert "ABCDEF"[4] == 'E' && "ABCDEF"[5] == 'F' && "abcdef"[0] == 'a' && "abcdef"[1] == 'b';
    assert "abcdef"[2] == 'c' && "abcdef"[3] == 'd' && "abcdef"[4] == 'e' && "abcdef"[5] == 'f';
  }

  lemma {:induction false} NumeralRoundTrip(n: nat, base: nat)
    requires 2 <= base <= 16
    ensures ParseNumeral(Numeral(n, base), base) == Some(n)
  {
    hide DigitsValue, High, Low;
    if n < base {
      EmptyNumeral(base);
      LastDigit("", n, 0, base);
      assert "" + [DIGITS[n]] == [DIGITS[n]];
    } else {
      var high, low := High(n, base), Low(n, base);
      NumeralRoundTrip(high, base);
      LastDigit(Numeral(high, base), low, high, base);
      HighAndLow(n, base);
    }
  }

  lemma EmptyNumeral(base: nat)
    ensures DigitsValue("", base) == Some(0)
  {
  }

  lemma LastDigit(high: string, low: nat, value: nat, base: nat)
    requires low < base <= 16 && DigitsValue(high, base) == Some(value)
    ensures DigitsValue(high + [DIGITS[low]], base) == Some(value * base + low)
  {
    DigitRoundTrip(low);
    assert (high + [DIGITS[low]])[..|high|] == high;
  }

  /** A numeral is a text, not empty, of digits of the base and nothing else. */
  lemma NumeralsExactly(s: string, base: nat)
    ensures ParseNumeral(s, base).Some? <==>
      s != "" && forall k :: 0 <= k < |s| ==> DigitValue(s[k]).Some? && DigitValue(s[k]).value < base
  {
    DigitsExactly(s, base);
  }

  lemma {:induction false} DigitsExactly(s: string, base: nat)
    ensures DigitsValue(s, base).Some? <==>
      forall k :: 0 <= k < |s| ==> DigitValue(s[k]).Some? && DigitValue(s[k]).value < base
  {
    if s != "" {
      var n := |s| - 1;
      DigitsExactly(s[..n], base);
      assert forall k :: 0 <= k < n ==> s[..n][k] == s[k];
      hide DigitValue;
    }
  }

  lemma NumeralIsInjective(m: nat, n: nat, base: nat)
    requires 2 <= base <= 16 && Numeral(m, base) == Numeral(n, base)
    ensures m == n
  {
    NumeralRoundTrip(m, base);
    NumeralRoundTrip(n, base);
  }

  lemma {:induction false} LeadingZero(s: string, base: nat)
    requires base > 0
    ensures DigitsValue("0" + s, base) == DigitsValue(s, base)
  {
    if s == "" {
      assert ("0" + s)[..0] == "";
    } else {
      LeadingZero(s[..|s| - 1], base);
      assert ("0" + s)[..|s|] == "0" + s[..|s| - 1];
    }
  }
}
