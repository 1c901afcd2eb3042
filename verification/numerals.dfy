/** The two textual encodings of random numbers used by the backend:
    Python's `str(n)` for the six-digit verification code, and
    `secrets.token_hex(k).upper()` for the public account id. */
module Numerals {
  import opened Text

  function DigitChar(d: nat): (c: char)
    requires d < 10
    ensures IsDigit(c)
  {
    "0123456789"[d]
  }

  function DigitValue(c: char): (d: nat)
    requires IsDigit(c)
    ensures d < 10 && DigitChar(d) == c
  {
    c as int - '0' as int
  }

  function Pow10(k: nat): (p: nat)
    ensures p >= 1
  {
    if k == 0 then 1 else 10 * Pow10(k - 1)
  }

  /** Python's `str(n)` for a non-negative integer: its decimal digits,
      most significant first, without leading zeros. */
  function DecimalString(n: nat): (s: string)
    ensures |s| >= 1 && AllDigits(s)
    ensures n >= 10 ==> s[0] != '0'
  {
    if n < 10 then [DigitChar(n)] else DecimalString(n / 10) + [DigitChar(n % 10)]
  }

  /** Python's `int(s)` on a string of decimal digits. */
  function DecimalValue(s: string): nat
    requires AllDigits(s)
  {
    if s == "" then 0 else DecimalValue(s[..|s| - 1]) * 10 + DigitValue(s[|s| - 1])
  }

  /** Reading back the printed number gives the number. */
  lemma {:induction false} DecimalRoundTrip(n: nat)
    ensures DecimalValue(DecimalString(n)) == n
  {
    var s := DecimalString(n);
    if n >= 10 {
      var front := DecimalString(n / 10);
      assert s == front + [DigitChar(n % 10)];
      assert s[..|s| - 1] == front;
      assert DigitValue(s[|s| - 1]) == n % 10;
      DecimalRoundTrip(n / 10);
      assert DecimalValue(s) == DecimalValue(front) * 10 + n % 10;
    }
  }

  /** A number with exactly `k` digits prints as `k` characters; 0 counts
      as one digit. */
  lemma {:induction false} DecimalLength(n: nat, k: nat)
    requires k >= 1 && (k == 1 || Pow10(k - 1) <= n) && n < Pow10(k)
    ensures |DecimalString(n)| == k
  {
    if n >= 10 {
      assert k >= 2;
      DecimalLength(n / 10, k - 1);
    }
  }

  type Byte = x: int | 0 <= x < 256

  predicate IsHexUpper(c: char) {
    ('0' <= c <= '9') || ('A' <= c <= 'F')
  }

  /** The upper-case hexadecimal digit of value `d`. */
  function HexChar(d: nat): (c: char)
    requires d < 16
    ensures IsHexUpper(c)
  {
    if d < 10 then (d + '0' as int) as char else (d - 10 + 'A' as int) as char
  }

  /** `bytes.hex().upper()`: two upper-case hexadecimal characters per byte. */
  function HexUpper(bytes: seq<Byte>): (s: string)
    ensures |s| == 2 * |bytes|
    ensures forall i :: 0 <= i < |s| ==> IsHexUpper(s[i])
  {
    if bytes == [] then ""
    else [HexChar(bytes[0] / 16), HexChar(bytes[0] % 16)] + HexUpper(bytes[1..])
  }

  function HexValue(c: char): (v: nat)
    requires IsHexUpper(c)
    ensures v < 16 && HexChar(v) == c
  {
    if '0' <= c <= '9' then c as int - '0' as int else c as int - 'A' as int + 10
  }

  /** The inverse of `HexUpper`: decodes pairs of hexadecimal characters. */
  function ParseHexUpper(s: string): seq<Byte>
    requires |s| % 2 == 0
    requires forall i :: 0 <= i < |s| ==> IsHexUpper(s[i])
  {
    if s == "" then [] else [HexValue(s[0]) * 16 + HexValue(s[1])] + ParseHexUpper(s[2..])
  }

  /** The hexadecimal text determines the bytes it was made from. */
  lemma {:induction false} HexRoundTrip(bytes: seq<Byte>)
    ensures ParseHexUpper(HexUpper(bytes)) == bytes
  {
    if bytes != [] {
      var s := HexUpper(bytes);
      assert s[2..] == HexUpper(bytes[1..]);
      HexRoundTrip(bytes[1..]);
    }
  }
}
