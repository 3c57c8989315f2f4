/** Pieces of Python's behaviour that all three programs rely on: an
    exception-or-value result, string repetition (`c * k`) and `str()` of an
    integer, with the facts about them that the programs' properties need. */
module Common {

  /** A value, or the exception that Python would have raised instead. */
  datatype Result<T, E> = Success(value: T) | Failure(error: E)

  /** Python's `c * k` for a one-character string c: k copies of c, and the
      empty string when k is zero or negative. */
  function Repeat(c: char, k: int): (s: string)
    ensures |s| == if k > 0 then k else 0
    decreases if k > 0 then k else 0
  {
    if k <= 0 then [] else [c] + Repeat(c, k - 1)
  }

  lemma {:induction false} RepeatIsUniform(c: char, k: int, i: int)
    requires 0 <= i < |Repeat(c, k)|
    ensures Repeat(c, k)[i] == c
    decreases if k > 0 then k else 0
  {
    if i > 0 {
      RepeatIsUniform(c, k - 1, i - 1);
    }
  }

  /** The decimal digit character for d. */
  function DigitChar(d: nat): (c: char)
    requires d < 10
    ensures '0' <= c <= '9'
    ensures c as int - '0' as int == d
  {
    ('0' as int + d) as char
  }

  predicate IsDigit(c: char) {
    '0' <= c <= '9'
  }

  /** A character that `str()` of an int can produce. */
  predicate IsNumeral(c: char) {
    c == '-' || IsDigit(c)
  }

  /** Python's `str(n)` for n >= 0: decimal digits, most significant first,
      with a leading zero only for zero itself. */
  function NatToString(n: nat): (s: string)
    ensures 1 <= |s|
    ensures forall i :: 0 <= i < |s| ==> IsDigit(s[i])
    ensures (|s| == 1) == (n < 10)
    ensures (s[0] == '0') == (n == 0)
    decreases n
  {
    if n < 10 then [DigitChar(n)] else NatToString(n / 10) + [DigitChar(n % 10)]
  }

  /** The number a string of decimal digits denotes: the inverse of NatToString. */
  function DigitsValue(s: string): int
    requires forall i :: 0 <= i < |s| ==> IsDigit(s[i])
  {
    if s == [] then 0 else DigitsValue(s[..|s| - 1]) * 10 + (s[|s| - 1] as int - '0' as int)
  }

  lemma {:induction false} DigitsValueOfNatToString(n: nat)
    ensures DigitsValue(NatToString(n)) == n
  {
    if n >= 10 {
      var s := NatToString(n);
      assert s[..|s| - 1] == NatToString(n / 10);
      DigitsValueOfNatToString(n / 10);
    }
  }

  /** Python's `str(i)` for any int: a minus sign before the digits of -i when
      i is negative. */
  function IntToString(i: int): (s: string)
    ensures 1 <= |s|
    ensures (s[0] == '-') == (i < 0)
    ensures forall k :: 0 <= k < |s| ==> IsNumeral(s[k])
    ensures i >= 0 ==> s == NatToString(i)
  {
    if i < 0 then "-" + NatToString(-i) else NatToString(i)
  }

  /** Distinct integers have distinct decimal strings. */
  lemma IntToStringInjective(a: int, b: int)
    requires IntToString(a) == IntToString(b)
    ensures a == b
  {
    if a < 0 {
      assert IntToString(a)[1..] == NatToString(-a);
      assert IntToString(b)[1..] == NatToString(-b);
      NatToStringInjective(-a, -b);
    } else {
      NatToStringInjective(a, b);
    }
  }

  lemma NatToStringInjective(a: nat, b: nat)
    requires NatToString(a) == NatToString(b)
    ensures a == b
  {
    DigitsValueOfNatToString(a);
    DigitsValueOfNatToString(b);
  }

  /** Where the longer first part of an equal concatenation sits in the other. */
  lemma ConcatAt(x: string, rest: string, y: string, rest': string)
    ensures x + rest == y + rest' && |x| < |y| ==> rest != [] && rest[0] == y[|x|]
  {
    if x + rest == y + rest' && |x| < |y| {
      assert (x + rest)[|x|] == rest[0];
    }
  }

  /** When two numerals are each followed by text that is empty or starts with
      a non-numeral character, equal concatenations split at the same place. */
  lemma NumeralPrefixUnique(x: string, y: string, rest: string, rest': string)
    requires forall k :: 0 <= k < |x| ==> IsNumeral(x[k])
    requires forall k :: 0 <= k < |y| ==> IsNumeral(y[k])
    requires rest != [] ==> !IsNumeral(rest[0])
    requires rest' != [] ==> !IsNumeral(rest'[0])
    requires x + rest == y + rest'
    ensures x == y && rest == rest'
  {
    if |x| < |y| {
      ConcatAt(x, rest, y, rest');
      assert false;
    } else if |y| < |x| {
      ConcatAt(y, rest', x, rest);
      assert false;
    } else {
      assert x == (x + rest)[..|x|];
      assert y == (y + rest')[..|y|];
      assert rest == (x + rest)[|x|..];
      assert rest' == (y + rest')[|y|..];
    }
  }
}
