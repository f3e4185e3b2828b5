/**
 * The few JavaScript string primitives the core relies on: the character
 * class `\s` (which is also the set `String.prototype.trim` removes),
 * `trim() !== ''`, `startsWith`, and the decimal rendering of an integer
 * in a template literal.
 */
module JsText {

  /** WhiteSpace and LineTerminator code points in the ECMAScript sense. */
  const JsWhitespace: set<char> := {
    '\t', '\n', '\U{B}', '\U{C}', '\r', ' ', '\U{A0}', '\U{1680}',
    '\U{2000}', '\U{2001}', '\U{2002}', '\U{2003}', '\U{2004}', '\U{2005}',
    '\U{2006}', '\U{2007}', '\U{2008}', '\U{2009}', '\U{200A}',
    '\U{2028}', '\U{2029}', '\U{202F}', '\U{205F}', '\U{3000}', '\U{FEFF}'
  }

  /** A character matched by `\s` and removed by `trim`. */
  predicate IsJsWhitespace(c: char)
  {
    c in JsWhitespace
  }

  /** `s.trim() === ''`: every character is whitespace. */
  predicate IsBlank(s: string)
  {
    forall i :: 0 <= i < |s| ==> IsJsWhitespace(s[i])
  }

  predicate StartsWith(s: string, prefix: string)
  {
    |prefix| <= |s| && s[..|prefix|] == prefix
  }

  predicate EndsWith(s: string, suffix: string)
  {
    |suffix| <= |s| && s[|s| - |suffix|..] == suffix
  }

  /** Decimal digits of a natural number, most significant first. */
  function NatToString(n: nat): (r: string)
    ensures r != []
    ensures forall i :: 0 <= i < |r| ==> '0' <= r[i] <= '9'
    ensures n == 0 <==> r == "0"
    ensures r[0] == '0' ==> n == 0
    decreases n
  {
    if n < 10 then ['0' + n as char]
    else NatToString(n / 10) + ['0' + (n % 10) as char]
  }

  /** `${n}` for an integer `n`. */
  function IntToString(n: int): (r: string)
    ensures r != []
    ensures n < 0 <==> r[0] == '-'
  {
    if n < 0 then "-" + NatToString(-n) else NatToString(n)
  }

  /** The number a string of decimal digits stands for, read most significant first. */
  function DigitsValue(s: string): int
  {
    if s == [] then 0
    else 10 * DigitsValue(s[..|s| - 1]) + (s[|s| - 1] as int - '0' as int)
  }

  /** The digits written for `n` read back as `n`. */
  lemma {:induction false} NatToStringValue(n: nat)
    ensures DigitsValue(NatToString(n)) == n
    decreases n
  {
    if n >= 10 {
      NatToStringValue(n / 10);
      var r := NatToString(n);
      assert r[..|r| - 1] == NatToString(n / 10);
    }
  }

  /** `${n}` reads back as `n`: its digits, after a `-` for a negative number, are the magnitude. */
  lemma IntToStringValue(n: int)
    ensures n >= 0 ==> DigitsValue(IntToString(n)) == n
    ensures n < 0 ==> DigitsValue(IntToString(n)[1..]) == -n
  {
    if n >= 0 {
      NatToStringValue(n);
    } else {
      NatToStringValue(-n);
      assert IntToString(n)[1..] == NatToString(-n);
    }
  }
}
