/** The few pieces of java.lang that the account code relies on: fixed-width
    integers, null in string concatenation, Integer.toString, Integer.parseInt
    and String.isBlank. */
module JavaLang {
  import opened Wrappers

  /** A Java `byte`. */
  newtype int8 = x: int | -0x80 <= x < 0x80

  /** A Java `int`. */
  newtype int32 = x: int | -0x8000_0000 <= x < 0x8000_0000

  /** The text a String reference contributes to a concatenation: Java
      renders a null reference as "null". */
  function Str(s: Option<string>): string
  {
    if s.Some? then s.value else "null"
  }

  /** Character.forDigit: the lower-case digit character of `d`. */
  function DigitChar(d: nat): char
    requires d < 36
  {
    if d < 10 then ('0' as int + d) as char else ('a' as int + d - 10) as char
  }

  /** Character.digit for the characters DigitChar produces. */
  predicate IsDigitChar(c: char, radix: nat)
  {
    ('0' <= c <= '9' || 'a' <= c <= 'z') && DigitValue(c) < radix
  }

  function DigitValue(c: char): nat
  {
    if '0' <= c <= '9' then c as int - '0' as int
    else if 'a' <= c <= 'z' then c as int - 'a' as int + 10
    else 0
  }

  lemma DigitValueOfDigitChar(d: nat)
    requires d < 36
    ensures DigitValue(DigitChar(d)) == d
  {
  }

  lemma DigitCharIsDigit(d: nat, radix: nat)
    requires d < radix <= 36
    ensures IsDigitChar(DigitChar(d), radix)
  {
  }

  function Pow(b: nat, k: nat): nat
  {
    if k == 0 then 1 else b * Pow(b, k - 1)
  }

  /** Integer.toString(n, radix) for a non-negative n: the most significant
      digit first, no leading zeros, lower-case letters above 9. */
  function NatText(n: nat, radix: nat): (r: string)
    requires 2 <= radix <= 36
    ensures |r| >= 1
    decreases n
  {
    if n < radix then [DigitChar(n)] else NatText(n / radix, radix) + [DigitChar(n % radix)]
  }

  /** Every character of NatText(n, radix) is a digit of that radix. */
  lemma {:induction false} NatTextDigits(n: nat, radix: nat)
    requires 2 <= radix <= 36
    ensures forall i :: 0 <= i < |NatText(n, radix)| ==> IsDigitChar(NatText(n, radix)[i], radix)
    decreases n
  {
    if n < radix {
      DigitCharIsDigit(n, radix);
    } else {
      NatTextDigits(n / radix, radix);
      DigitCharIsDigit(n % radix, radix);
    }
  }

  /** The value of a string of digits, most significant first. */
  function DigitsValue(s: string, radix: nat): nat
  {
    if |s| == 0 then 0 else DigitsValue(s[..|s| - 1], radix) * radix + DigitValue(s[|s| - 1])
  }

  lemma {:induction false} NatTextValue(n: nat, radix: nat)
    requires 2 <= radix <= 36
    ensures DigitsValue(NatText(n, radix), radix) == n
    decreases n
  {
    if n < radix {
      DigitValueOfDigitChar(n);
      DigitsValueSnoc([], DigitChar(n), radix);
      assert [] + [DigitChar(n)] == NatText(n, radix);
    } else {
      var q, m := n / radix, n % radix;
      DivLess(n, radix);
      var front, last := NatText(q, radix), DigitChar(m);
      assert NatText(n, radix) == front + [last];
      assert DigitsValue(front, radix) == q by { NatTextValue(q, radix); }
      assert DigitValue(last) == m by { DigitValueOfDigitChar(m); }
      assert DigitsValue(front + [last], radix) == DigitsValue(front, radix) * radix + DigitValue(last) by {
        DigitsValueSnoc(front, last, radix);
      }
      assert q * radix + m == n by { DivMod(n, radix); }
    }
  }

  lemma DigitsValueSnoc(s: string, c: char, radix: nat)
    ensures DigitsValue(s + [c], radix) == DigitsValue(s, radix) * radix + DigitValue(c)
  {
    assert (s + [c])[..|s|] == s;
  }

  lemma DivLess(n: nat, d: nat)
    requires 2 <= d <= n
    ensures 1 <= n / d < n
  {
    var q := n / d;
    assert q * d + n % d == n;
    assert q * d <= n;
    assert q * 2 <= q * d;
  }

  lemma DivMod(n: nat, d: nat)
    requires d > 0
    ensures (n / d) * d + n % d == n
  {
  }

  lemma {:induction false} NatTextLength(n: nat, radix: nat, k: nat)
    requires 2 <= radix <= 36 && 1 <= k && n < Pow(radix, k)
    ensures |NatText(n, radix)| <= k
    decreases k
  {
    if n >= radix {
      var p := Pow(radix, k - 1);
      assert Pow(radix, k) == radix * p;
      ResultPositive(radix, k - 1);
      QuotientBound(n, radix, p);
      NatTextLength(n / radix, radix, k - 1);
    }
  }

  lemma QuotientBound(n: nat, d: nat, p: nat)
    requires d > 0 && n < d * p
    ensures n / d < p
  {
    DivMod(n, d);
  }

  /** Integer.toString(int): an optional minus sign and the decimal digits. */
  function DecimalText(n: int32): string
  {
    if n < 0 then "-" + NatText(-(n as int), 10) else NatText(n as int, 10)
  }

  /** Integer.parseInt for the strings DecimalText produces. */
  function ParseDecimal(s: string): int
  {
    if |s| > 0 && s[0] == '-' then -(DigitsValue(s[1..], 10) as int) else DigitsValue(s, 10)
  }

  /** The decimal text of an int is at most 11 characters long, a minus sign
      and ten digits at the most, and holds nothing but digits after an
      optional leading minus sign. */
  lemma DecimalTextShape(n: int32)
    ensures 1 <= |DecimalText(n)| <= 11
    ensures forall i :: 0 <= i < |DecimalText(n)| ==>
      IsDigitChar(DecimalText(n)[i], 10) || (i == 0 && DecimalText(n)[i] == '-' && n < 0)
  {
    assert Pow(10, 10) == 10_000_000_000 by {
      assert Pow(10, 5) == 100_000;
      assert Pow(10, 10) == Pow(10, 5) * Pow(10, 5) by { PowAdd(10, 5, 5); }
    }
    if n < 0 {
      NatTextLength(-(n as int), 10, 10);
      NatTextDigits(-(n as int), 10);
    } else {
      NatTextLength(n as int, 10, 10);
      NatTextDigits(n as int, 10);
    }
  }

  lemma {:induction false} ResultPositive(b: nat, k: nat)
    requires b >= 1
    ensures Pow(b, k) >= 1
    decreases k
  {
    if k > 0 {
      ResultPositive(b, k - 1);
    }
  }

  lemma {:induction false} PowAdd(b: nat, j: nat, k: nat)
    ensures Pow(b, j + k) == Pow(b, j) * Pow(b, k)
    decreases j
  {
    if j > 0 {
      PowAdd(b, j - 1, k);
    }
  }

  /** Integer.parseInt(Integer.toString(n)) == n: the decimal text of an
      int determines the int, so distinct ints give distinct texts. */
  lemma DecimalRoundTrip(n: int32)
    ensures ParseDecimal(DecimalText(n)) == n as int
  {
    var t := DecimalText(n);
    if n < 0 {
      NatTextValue(-(n as int), 10);
      assert t[1..] == NatText(-(n as int), 10);
    } else {
      NatTextValue(n as int, 10);
      NatTextDigits(n as int, 10);
    }
  }

  lemma DecimalTextInjective(m: int32, n: int32)
    requires DecimalText(m) == DecimalText(n)
    ensures m == n
  {
    DecimalRoundTrip(m);
    DecimalRoundTrip(n);
  }

  /** Character.isWhitespace: the ASCII controls tab to carriage return,
      the four information separators, and the Unicode space, line and
      paragraph separators other than the no-break spaces. */
  predicate IsWhitespace(c: char)
  {
    var k := c as int;
    (0x09 <= k <= 0x0D) || (0x1C <= k <= 0x20) || k == 0x1680
    || (0x2000 <= k <= 0x2006) || (0x2008 <= k <= 0x200A)
    || k == 0x2028 || k == 0x2029 || k == 0x205F || k == 0x3000
  }

  /** String.isBlank: empty or white space only. */
  predicate IsBlank(s: string)
  {
    forall i :: 0 <= i < |s| ==> IsWhitespace(s[i])
  }
}
