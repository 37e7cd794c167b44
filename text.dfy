/** Strings as the script manipulates them: lower-casing, `str()` of an integer, substring search. */
module Text {

  /** ASCII lower-casing of one character; every other character is left alone. */
  function LowerChar(c: char): char {
    if 'A' <= c <= 'Z' then (c as int + 32) as char else c
  }

  /** Python's `str.lower()`, restricted to ASCII letters. */
  function Lower(s: string): (r: string)
    ensures |r| == |s|
    ensures forall i :: 0 <= i < |s| ==> r[i] == LowerChar(s[i])
  {
    if s == [] then [] else [LowerChar(s[0])] + Lower(s[1..])
  }

  /** A string with no upper-case ASCII letter is its own lower-case form. */
  lemma LowerOfLowerCase(s: string)
    requires forall i :: 0 <= i < |s| ==> !('A' <= s[i] <= 'Z')
    ensures Lower(s) == s
  {
  }

  /** The decimal digit for d. */
  function DigitChar(d: nat): (c: char)
    requires d < 10
    ensures '0' <= c <= '9' && c as int - '0' as int == d
  {
    (d + '0' as int) as char
  }

  predicate IsDigit(c: char) {
    '0' <= c <= '9'
  }

  /** Decimal digits of a natural number, most significant first, with no leading zero. */
  function NatToString(n: nat): (r: string)
    decreases n
    ensures |r| > 0 && forall i :: 0 <= i < |r| ==> IsDigit(r[i])
    ensures |r| > 1 ==> r[0] != '0'
  {
    if n < 10 then [DigitChar(n)] else NatToString(n / 10) + [DigitChar(n % 10)]
  }

  /** Python's `str(n)` for an integer: an optional minus sign and the decimal digits. */
  function IntToString(n: int): (r: string)
    ensures |r| > 0
    ensures (r[0] == '-') <==> n < 0
  {
    if n < 0 then "-" + NatToString(-n) else NatToString(n)
  }

  /** Reads back a run of decimal digits (the partner of NatToString). */
  function ParseDigits(s: string): int
    decreases |s|
  {
    if s == [] then 0 else 10 * ParseDigits(s[..|s| - 1]) + (s[|s| - 1] as int - '0' as int)
  }

  /** Reads back `str(n)`. */
  function ParseInt(s: string): int {
    if |s| > 0 && s[0] == '-' then -ParseDigits(s[1..]) else ParseDigits(s)
  }

  lemma {:induction false} NatToStringRoundTrip(n: nat)
    ensures ParseDigits(NatToString(n)) == n
    decreases n
  {
    if n >= 10 {
      NatToStringRoundTrip(n / 10);
      var s := NatToString(n / 10) + [DigitChar(n % 10)];
      assert s[..|s| - 1] == NatToString(n / 10);
    }
  }

  /** `str()` of an integer loses nothing: the number can be read back from the command line. */
  lemma IntToStringRoundTrip(n: int)
    ensures ParseInt(IntToString(n)) == n
  {
    if n < 0 {
      NatToStringRoundTrip(-n);
      assert ("-" + NatToString(-n))[1..] == NatToString(-n);
    } else {
      NatToStringRoundTrip(n);
    }
  }

  /** t occurs in s as a contiguous run of characters. */
  predicate IsInfix(t: string, s: string)
    decreases |s|
  {
    t <= s || (|s| > 0 && IsInfix(t, s[1..]))
  }

  lemma ConcatAssoc<T>(a: seq<T>, b: seq<T>, c: seq<T>)
    ensures a + (b + c) == (a + b) + c
  {
  }

  lemma InfixOfSelf(t: string)
    ensures IsInfix(t, t)
  {
  }

  /** Whatever occurs in x still occurs once something is appended to x. */
  lemma {:induction false} InfixOfAppend(t: string, x: string, y: string)
    requires IsInfix(t, x)
    ensures IsInfix(t, x + y)
    decreases |x|
  {
    if !(t <= x) {
      InfixOfAppend(t, x[1..], y);
      assert (x + y)[1..] == x[1..] + y;
    }
  }

  /** Whatever occurs in y still occurs once something is put in front of y. */
  lemma {:induction false} InfixOfPrepend(t: string, x: string, y: string)
    requires IsInfix(t, y)
    ensures IsInfix(t, x + y)
    decreases |x|
  {
    if x == [] {
      assert x + y == y;
    } else {
      InfixOfPrepend(t, x[1..], y);
      assert (x + y)[1..] == x[1..] + y;
    }
  }
}
