/**
 * The two `java.lang` library calls the CSV core relies on:
 * `Integer.parseInt(String)` (decimal, ASCII digits) and `String.contains(CharSequence)`.
 */
module JavaLang {
  import opened Wrappers

  /** Java's `int`: 32-bit two's complement. */
  newtype int32 = x: int | -0x8000_0000 <= x < 0x8000_0000

  predicate IsDigit(c: char) {
    '0' <= c <= '9'
  }

  predicate AllDigits(s: string) {
    forall i :: 0 <= i < |s| ==> IsDigit(s[i])
  }

  function DigitValue(c: char): nat
    requires IsDigit(c)
  {
    c as int - '0' as int
  }

  /** Base-10 value of a run of ASCII digits, most significant digit first. */
  function DigitsValue(s: string): nat
    requires AllDigits(s)
  {
    if s == [] then 0 else 10 * DigitsValue(s[..|s| - 1]) + DigitValue(s[|s| - 1])
  }

  /** The text `Integer.parseInt` accepts before its range check: an optional sign, then at least one digit. */
  predicate IsDecimal(s: string) {
    if |s| > 0 && (s[0] == '-' || s[0] == '+') then |s| > 1 && AllDigits(s[1..])
    else |s| > 0 && AllDigits(s)
  }

  function DecimalValue(s: string): int
    requires IsDecimal(s)
  {
    if s[0] == '-' then -(DigitsValue(s[1..]) as int)
    else if s[0] == '+' then DigitsValue(s[1..])
    else DigitsValue(s)
  }

  predicate InInt32Range(n: int) {
    -0x8000_0000 <= n < 0x8000_0000
  }

  /**
   * `Integer.parseInt(s)`: `None` stands for the `NumberFormatException` it throws on text that is
   * not a signed decimal or whose value does not fit in an `int`. Leading zeros are accepted;
   * whitespace is not.
   */
  function ParseInt(s: string): Option<int32> {
    if IsDecimal(s) && InInt32Range(DecimalValue(s)) then Some(DecimalValue(s) as int32) else None
  }

  /** Decimal digits of `n` without leading zeros (`"0"` for zero). */
  function Digits(n: nat): (s: string)
    ensures |s| > 0 && AllDigits(s)
  {
    if n < 10 then [('0' as int + n) as char] else Digits(n / 10) + [('0' as int + n % 10) as char]
  }

  /** `Integer.toString(n)`: the canonical decimal text of an `int`. */
  function IntToString(n: int32): string {
    if n < 0 then "-" + Digits(-(n as int)) else Digits(n as nat)
  }

  lemma {:induction false} DigitsValueOfDigits(n: nat)
    ensures DigitsValue(Digits(n)) == n
  {
    if n >= 10 {
      var s := Digits(n);
      assert s[..|s| - 1] == Digits(n / 10);
      DigitsValueOfDigits(n / 10);
    }
  }

  /** `Integer.parseInt` reads back every `int` that `Integer.toString` writes. */
  lemma ParseIntToString(n: int32)
    ensures ParseInt(IntToString(n)) == Some(n)
  {
    var s := IntToString(n);
    if n < 0 {
      DigitsValueOfDigits(-(n as int));
      assert s[1..] == Digits(-(n as int));
    } else {
      DigitsValueOfDigits(n as nat);
    }
  }

  /** Text with a character other than a sign or digit in it is never an integer. */
  lemma ParseIntRejectsNonDigit(s: string, i: nat)
    requires i < |s| && !IsDigit(s[i]) && !(i == 0 && (s[i] == '-' || s[i] == '+'))
    ensures ParseInt(s) == None
  {
    if |s| > 0 && (s[0] == '-' || s[0] == '+') {
      assert s[1..][i - 1] == s[i];
    }
  }

  /**
   * `s.contains(w)`: `w` occurs in `s` at some position. Every string contains the empty
   * string.
   */
  predicate Contains(s: string, w: string)
    decreases |s|
  {
    w <= s || (|s| > 0 && Contains(s[1..], w))
  }

  /** A string without the word's first character does not contain the word. */
  lemma {:induction false} MissingFirstCharNotContained(s: string, w: string)
    requires |w| > 0 && forall i :: 0 <= i < |s| ==> s[i] != w[0]
    ensures !Contains(s, w)
    decreases |s|
  {
    if |s| > 0 {
      assert s[0] != w[0];
      MissingFirstCharNotContained(s[1..], w);
    }
  }

  /** `w` occurs in `s` starting at position `i`. */
  predicate OccursAt(s: string, w: string, i: int) {
    0 <= i && i + |w| <= |s| && s[i..i + |w|] == w
  }

  /** An occurrence in the tail is an occurrence in the whole string one position further on. */
  lemma OccursInTail(s: string, w: string, i: int)
    requires |s| > 0 && i >= 0
    ensures OccursAt(s[1..], w, i) <==> OccursAt(s, w, i + 1)
  {
    if 0 <= i && i + |w| <= |s| - 1 {
      var t := s[1..];
      assert t[i..i + |w|] == s[i + 1..i + 1 + |w|];
    }
  }

  /** `Contains` holds exactly when `w` occurs in `s` at some position. */
  lemma {:induction false} ContainsIffOccurs(s: string, w: string)
    ensures Contains(s, w) <==> exists i :: OccursAt(s, w, i)
  {
    if w <= s {
      assert OccursAt(s, w, 0);
    } else if |s| > 0 {
      ContainsIffOccurs(s[1..], w);
      if Contains(s[1..], w) {
        var i :| OccursAt(s[1..], w, i);
        OccursInTail(s, w, i);
      } else {
        forall i: int
          ensures !OccursAt(s, w, i)
        {
          if i > 0 {
            OccursInTail(s, w, i - 1);
          }
        }
      }
    }
  }
}
