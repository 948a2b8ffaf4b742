/**
 * JavaScript number formatting and `parseInt`, as far as the application uses
 * them: `rank.toString()`, and the coercion of leaderboard referral counts with
 * `parseInt`.
 */
module JsNumber {
  import opened JsText

  /** A JavaScript number as the application sees it: an integer, or NaN. */
  datatype Number = Int(value: int) | NaN

  function DigitChar(d: nat): (c: char)
    requires d < 10
    ensures IsDigit(c)
  {
    ('0' as int + d) as char
  }

  /** `n.toString()` for a non-negative integer: decimal digits without leading zeros. */
  function NatToString(n: nat): (r: string)
    ensures |r| >= 1
    ensures forall k | 0 <= k < |r| :: IsDigit(r[k])
    ensures r[0] == '0' ==> n == 0 && |r| == 1
  {
    if n < 10 then [DigitChar(n)] else NatToString(n / 10) + [DigitChar(n % 10)]
  }

  /** `String(n)` for an integer. */
  function IntToString(n: int): string {
    if n < 0 then "-" + NatToString(-n) else NatToString(n)
  }

  /** The value of `c` as a digit in radix 10 or 16, or -1 when it is not one. */
  function DigitValue(c: char, radix: nat): (v: int)
    ensures v < 16 && (radix == 10 ==> v < 10)
    ensures v >= 0 ==> IsHexDigit(c)
  {
    if '0' <= c <= '9' then c as int - '0' as int
    else if radix == 16 && 'a' <= c <= 'f' then c as int - 'a' as int + 10
    else if radix == 16 && 'A' <= c <= 'F' then c as int - 'A' as int + 10
    else -1
  }

  /** The longest prefix of `s` made of digits of the radix. */
  function DigitPrefix(s: string, radix: nat): (z: string)
    ensures |z| <= |s| && z == s[..|z|]
    ensures forall k | 0 <= k < |z| :: DigitValue(z[k], radix) >= 0
    ensures |z| < |s| ==> DigitValue(s[|z|], radix) < 0
  {
    if s != [] && DigitValue(s[0], radix) >= 0 then [s[0]] + DigitPrefix(s[1..], radix) else []
  }

  /** The integer that a string of digits denotes in radix 16, or else in radix 10. */
  function Value(z: string, radix: nat): int {
    if z == [] then 0
    else
      var high := Value(z[..|z| - 1], radix);
      (if radix == 16 then high * 16 else high * 10) + DigitValue(z[|z| - 1], radix)
  }

  /** `parseInt` drops one leading sign character. */
  function DropSign(t: string): string {
    if t != [] && (t[0] == '-' || t[0] == '+') then t[1..] else t
  }

  /** `parseInt` without a radix reads hexadecimal after a `0x` or `0X` prefix. */
  predicate HasHexPrefix(u: string) {
    |u| >= 2 && u[0] == '0' && (u[1] == 'x' || u[1] == 'X')
  }

  /**
   * `parseInt(s)` with no radix: skip leading white space, take one optional
   * sign, switch to radix 16 after a `0x`/`0X` prefix, then read the longest
   * run of digits; NaN when there is none, as for blank text. Numbers are
   * exact integers here.
   */
  function ParseInt(s: string): (n: Number)
    ensures AllSpace(s) ==> n == NaN
  {
    ParseTrimmed(TrimStart(s))
  }

  /** `parseInt` after the leading white space is skipped. */
  function ParseTrimmed(t: string): Number {
    var negative := t != [] && t[0] == '-';
    Signed(negative, ParseUnsigned(DropSign(t)))
  }

  /** `parseInt` after the sign: the digits of the radix the prefix selects. */
  function ParseUnsigned(u: string): Number {
    var radix := if HasHexPrefix(u) then 16 else 10;
    var z := DigitPrefix(if HasHexPrefix(u) then u[2..] else u, radix);
    if z == [] then NaN else Int(Value(z, radix))
  }

  /** Applies the sign read before the digits. */
  function Signed(negative: bool, n: Number): Number {
    match n
    case NaN => NaN
    case Int(v) => Int(if negative then -v else v)
  }

  /** The digits of a plain unsigned decimal numeral denote its value. */
  lemma ParseUnsignedOfDigits(d: string)
    requires d != [] && forall k | 0 <= k < |d| :: IsDigit(d[k])
    ensures ParseUnsigned(d) == Int(Value(d, 10))
  {
    assert !HasHexPrefix(d) by {
      if |d| >= 2 { assert IsDigit(d[1]); }
    }
    DigitPrefixOfDigits(d);
  }

  /** `parseInt` of a string that starts with a digit skips no space and reads no sign. */
  lemma ParseIntNoSign(s: string)
    requires s != [] && IsDigit(s[0])
    ensures ParseInt(s) == ParseUnsigned(s)
  {
    TrimStartOfNonSpace(s);
    assert DropSign(s) == s;
  }

  /** `parseInt` of `-` and more reads the rest and negates it. */
  lemma ParseIntMinus(d: string)
    ensures ParseInt("-" + d) == Signed(true, ParseUnsigned(d))
  {
    var s := "-" + d;
    assert s[0] == '-';
    TrimStartOfNonSpace(s);
    assert DropSign(s) == d;
  }

  /** What `parseInt` does with a plain unsigned decimal numeral. */
  lemma ParseIntOfDigits(s: string)
    requires s != [] && forall k | 0 <= k < |s| :: IsDigit(s[k])
    ensures ParseInt(s) == Int(Value(s, 10))
  {
    ParseIntNoSign(s);
    ParseUnsignedOfDigits(s);
  }

  lemma {:induction false} ValueOfNatToString(n: nat)
    ensures Value(NatToString(n), 10) == n
  {
    if n >= 10 {
      var s := NatToString(n);
      assert s[..|s| - 1] == NatToString(n / 10);
      ValueOfNatToString(n / 10);
    }
  }

  lemma {:induction false} ValueOfZeros(k: nat)
    ensures Value(Repeat('0', k), 10) == 0
  {
    if k > 0 {
      var z := Repeat('0', k);
      assert z[..k - 1] == Repeat('0', k - 1);
      ValueOfZeros(k - 1);
    }
  }

  /** Leading zeros do not change the value of a decimal numeral. */
  lemma {:induction false} ValueIgnoresLeadingZeros(k: nat, d: string)
    ensures Value(Repeat('0', k) + d, 10) == Value(d, 10)
    decreases |d|
  {
    var z := Repeat('0', k);
    if d == [] {
      assert z + d == z;
      ValueOfZeros(k);
    } else {
      assert (z + d)[..|z + d| - 1] == z + d[..|d| - 1];
      ValueIgnoresLeadingZeros(k, d[..|d| - 1]);
    }
  }

  lemma {:induction false} DigitPrefixOfDigits(s: string)
    requires forall k | 0 <= k < |s| :: IsDigit(s[k])
    ensures DigitPrefix(s, 10) == s
  {
    if s != [] {
      DigitPrefixOfDigits(s[1..]);
    }
  }

  lemma TrimStartOfNonSpace(s: string)
    requires s != [] && !IsJsSpace(s[0])
    ensures TrimStart(s) == s
  {
  }

  /** `parseInt` reads back a zero-padded decimal numeral (as `padStart` produces). */
  lemma ParseIntOfPadded(k: nat, n: nat)
    ensures ParseInt(Repeat('0', k) + NatToString(n)) == Int(n)
  {
    var s := Repeat('0', k) + NatToString(n);
    assert forall i | 0 <= i < |s| :: IsDigit(s[i]);
    ParseIntOfDigits(s);
    ValueIgnoresLeadingZeros(k, NatToString(n));
    ValueOfNatToString(n);
  }

  /** `parseInt(String(n)) === n` for every integer `n`. */
  lemma ParseIntOfToString(n: int)
    ensures ParseInt(IntToString(n)) == Int(n)
  {
    if n >= 0 {
      assert IntToString(n) == NatToString(n);
      ParseIntOfNatString(n);
    } else {
      assert IntToString(n) == "-" + NatToString(-n);
      ParseIntOfNegativeString(-n);
    }
  }

  lemma ParseIntOfNatString(n: nat)
    ensures ParseInt(NatToString(n)) == Int(n)
  {
    ParseIntOfDigits(NatToString(n));
    ValueOfNatToString(n);
  }

  lemma ParseIntOfNegativeString(n: nat)
    ensures ParseInt("-" + NatToString(n)) == Int(-(n as int))
  {
    ParseIntMinus(NatToString(n));
    ParseUnsignedOfDigits(NatToString(n));
    ValueOfNatToString(n);
  }
}
