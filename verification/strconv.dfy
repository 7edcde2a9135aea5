/**
 * The parts of Go's `strconv` package that the value decoder relies on with
 * exact behaviour: `ParseInt` in base 10 for the bit sizes 16, 32 and 64, and
 * the canonical base-10 and boolean formatting used to state round trips.
 */
module Strconv {
  import opened Wrappers

  /** Go's `int64`: `ParseInt` always returns one, whatever the bit size. */
  type Int64 = x: int | -0x8000_0000_0000_0000 <= x < 0x8000_0000_0000_0000

  /** The bit sizes the decoder passes to `ParseInt`. */
  type BitSize = b: nat | b == 16 || b == 32 || b == 64 witness 64

  /** The signed two's-complement range of a `bitSize`-bit integer. */
  predicate InRange(n: int, bitSize: BitSize)
  {
    if bitSize == 16 then -32768 <= n <= 32767
    else if bitSize == 32 then -2147483648 <= n <= 2147483647
    else -9223372036854775808 <= n <= 9223372036854775807
  }

  /** `1 << (bitSize - 1)`, the magnitude bound `ParseInt` checks against. */
  function Cutoff(bitSize: BitSize): nat
  {
    if bitSize == 16 then 0x8000
    else if bitSize == 32 then 0x8000_0000
    else 0x8000_0000_0000_0000
  }

  predicate IsDigit(c: char)
  {
    '0' <= c <= '9'
  }

  predicate AllDigits(s: string)
  {
    forall i :: 0 <= i < |s| ==> IsDigit(s[i])
  }

  /** The value of a string of decimal digits, most significant first. */
  function DigitsValue(s: string): nat
    requires AllDigits(s)
  {
    if |s| == 0 then 0
    else DigitsValue(s[..|s| - 1]) * 10 + (s[|s| - 1] as int - '0' as int)
  }

  /** A base-10 integer literal: an optional sign followed by at least one digit. */
  predicate IsDecimalLiteral(s: string)
  {
    |s| > 0 &&
    if s[0] == '+' || s[0] == '-' then |s| > 1 && AllDigits(s[1..]) else AllDigits(s)
  }

  /** The integer a base-10 literal denotes. */
  function LiteralValue(s: string): int
    requires IsDecimalLiteral(s)
  {
    if s[0] == '-' then -(DigitsValue(s[1..]) as int)
    else if s[0] == '+' then DigitsValue(s[1..])
    else DigitsValue(s)
  }

  /**
   * `strconv.ParseInt(s, 10, bitSize)`: the leading sign is taken off, the
   * rest is read as an unsigned decimal, and the magnitude is checked against
   * `1 << (bitSize - 1)` (one more is allowed for a negative number). Go's
   * distinction between a syntax error and a range error is not kept: both are
   * `None`, and the clamped value Go returns alongside a range error is dropped.
   */
  function ParseInt(s: string, bitSize: BitSize): (r: Option<Int64>)
    ensures r.Some? <==> IsDecimalLiteral(s) && InRange(LiteralValue(s), bitSize)
    ensures r.Some? ==> r.value == LiteralValue(s)
  {
    if s == "" then None
    else
      var neg := s[0] == '-';
      var digits := if s[0] == '+' || s[0] == '-' then s[1..] else s;
      if |digits| == 0 || !AllDigits(digits) then None
      else
        var un: int := DigitsValue(digits);
        if !neg && un >= Cutoff(bitSize) then None
        else if neg && un > Cutoff(bitSize) then None
        else Some(if neg then -un else un)
  }

  function DigitChar(d: nat): (c: char)
    requires d < 10
    ensures IsDigit(c) && c as int - '0' as int == d
  {
    (d + '0' as int) as char
  }

  /**
   * `strconv.FormatUint(n, 10)`: a digit string without leading zeros; that it
   * denotes `n` is `DigitsValueOfFormatNat`.
   */
  function FormatNat(n: nat): (s: string)
    ensures 0 < |s| && AllDigits(s)
    ensures |s| > 1 ==> s[0] != '0'
  {
    if n < 10 then [DigitChar(n)] else FormatNat(n / 10) + [DigitChar(n % 10)]
  }

  /** `strconv.FormatInt(n, 10)`: a minus sign for negative numbers, then the digits. */
  function FormatInt(n: int): (s: string)
    ensures IsDecimalLiteral(s)
    ensures s[0] != '+'
  {
    if n < 0 then "-" + FormatNat(-n) else FormatNat(n)
  }

  /** `strconv.FormatBool(b)`. */
  function FormatBool(b: bool): string
  {
    if b then "true" else "false"
  }

  lemma {:induction false} DigitsValueOfFormatNat(n: nat)
    ensures DigitsValue(FormatNat(n)) == n
  {
    if n >= 10 {
      var s := FormatNat(n);
      assert s[..|s| - 1] == FormatNat(n / 10);
      DigitsValueOfFormatNat(n / 10);
    }
  }

  /** Formatting then parsing is the identity on every in-range integer. */
  lemma ParseFormatInt(n: int, bitSize: BitSize)
    requires InRange(n, bitSize)
    ensures ParseInt(FormatInt(n), bitSize) == Some(n)
  {
    var s := FormatInt(n);
    if n < 0 {
      assert s[1..] == FormatNat(-n);
      DigitsValueOfFormatNat(-n);
    } else {
      DigitsValueOfFormatNat(n);
    }
  }

  /** Parsing is stable under widening: what fits a narrower size parses the same in a wider one. */
  lemma ParseIntWidens(s: string, narrow: BitSize, wide: BitSize)
    requires narrow <= wide
    requires ParseInt(s, narrow).Some?
    ensures ParseInt(s, wide) == ParseInt(s, narrow)
  {
  }

  /** Out of range for the smallest size: `99999` is rejected as a 16-bit integer but accepted as a 32-bit one. */
  lemma SmallintOverflow()
    ensures ParseInt("99999", 16) == None
    ensures ParseInt("99999", 32) == Some(99999)
  {
    assert DigitsValue("9999") == 9999 by {
      assert DigitsValue("999") == 999 by {
        assert DigitsValue("99") == 99 by {
          assert DigitsValue("9") == 9 by { assert "9"[..0] == ""; }
          assert "99"[..1] == "9";
        }
        assert "999"[..2] == "99";
      }
      assert "9999"[..3] == "999";
    }
    assert "99999"[..4] == "9999";
  }
}
