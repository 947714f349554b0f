/** Character classes and decimal/hexadecimal renderings shared by the encoders and parsers. */
module Text {

  /** A byte, as the UTF-8 encoders of the source see them. */
  newtype byte = x: int | 0 <= x < 256

  predicate IsAsciiDigit(c: char) {
    '0' <= c <= '9'
  }

  function DigitValue(c: char): (d: nat)
    requires IsAsciiDigit(c)
    ensures d < 10
  {
    (c as int) - ('0' as int)
  }

  function DigitChar(d: nat): (c: char)
    requires d < 10
    ensures IsAsciiDigit(c) && DigitValue(c) == d
  {
    (('0' as int) + d) as char
  }

  predicate AllDigits(s: string) {
    forall i :: 0 <= i < |s| ==> IsAsciiDigit(s[i])
  }

  /** The value of a run of decimal digits (what `int.Parse` reads before its range check). */
  function DecimalValue(s: string): (v: nat)
    requires AllDigits(s)
  {
    if s == [] then 0 else DecimalValue(s[..|s| - 1]) * 10 + DigitValue(s[|s| - 1])
  }

  /** The shortest decimal rendering of `n` (`n.ToString()` for `n >= 0`). */
  function NatToDecimal(n: nat): (s: string)
    ensures |s| >= 1 && AllDigits(s)
    ensures DecimalValue(s) == n
    ensures n >= 10 ==> s[0] != '0'
  {
    if n < 10 then [DigitChar(n)]
    else
      var prefix := NatToDecimal(n / 10);
      var s := prefix + [DigitChar(n % 10)];
      assert s[..|s| - 1] == prefix;
      s
  }

  /** `i.ToString()` on an `int`. */
  function IntToDecimal(i: int): (s: string)
    ensures |s| >= 1
    ensures i >= 0 ==> s == NatToDecimal(i)
    ensures i < 0 ==> s == "-" + NatToDecimal(-i)
  {
    if i >= 0 then NatToDecimal(i) else "-" + NatToDecimal(-i)
  }

  /** `n.ToString("D5")`: at least five digits, padded with leading zeros. */
  function PadD5(n: nat): (s: string)
    ensures |s| >= 5 && AllDigits(s)
    ensures DecimalValue(s) == n
  {
    var digits := NatToDecimal(n);
    if |digits| >= 5 then digits else ZeroPad(digits, 5 - |digits|)
  }

  /** `k` zeros in front of a digit run; the value is unchanged. */
  function ZeroPad(digits: string, k: nat): (s: string)
    requires AllDigits(digits)
    ensures |s| == |digits| + k && AllDigits(s)
    ensures DecimalValue(s) == DecimalValue(digits)
    decreases k
  {
    if k == 0 then digits
    else
      var s := "0" + ZeroPad(digits, k - 1);
      LeadingZero(ZeroPad(digits, k - 1));
      s
  }

  lemma {:induction false} LeadingZero(s: string)
    requires AllDigits(s)
    ensures AllDigits("0" + s) && DecimalValue("0" + s) == DecimalValue(s)
  {
    if s != [] {
      var t := "0" + s;
      assert t[..|t| - 1] == "0" + s[..|s| - 1];
      LeadingZero(s[..|s| - 1]);
    }
  }

  /** Upper-case hexadecimal digit, as `ToString("X2")` writes it. */
  function HexDigit(d: nat): (c: char)
    requires d < 16
    ensures IsUpperHex(c) && HexValue(c) == d
  {
    if d < 10 then (('0' as int) + d) as char else (('A' as int) + d - 10) as char
  }

  predicate IsUpperHex(c: char) {
    '0' <= c <= '9' || 'A' <= c <= 'F'
  }

  function HexValue(c: char): (d: nat)
    requires IsUpperHex(c)
    ensures d < 16
  {
    if '0' <= c <= '9' then (c as int) - ('0' as int) else (c as int) - ('A' as int) + 10
  }

  /** `b.ToString("X2")`: exactly two upper-case hex digits. */
  function HexX2(b: byte): (s: string)
    ensures |s| == 2 && IsUpperHex(s[0]) && IsUpperHex(s[1])
    ensures HexValue(s[0]) * 16 + HexValue(s[1]) == b as int
  {
    [HexDigit((b as int) / 16), HexDigit((b as int) % 16)]
  }

  /**
   * `char.IsWhiteSpace`, which is also the class matched by `\s` in .NET
   * regular expressions: U+0009..U+000D, U+0085 and the Unicode
   * space, line and paragraph separators.
   */
  predicate IsWhiteSpace(c: char) {
    || '\U{9}' <= c <= '\U{D}'
    || c == ' ' || c == '\U{85}' || c == '\U{A0}' || c == '\U{1680}'
    || '\U{2000}' <= c <= '\U{200A}'
    || c == '\U{2028}' || c == '\U{2029}' || c == '\U{202F}' || c == '\U{205F}' || c == '\U{3000}'
  }

  /**
   * The regular-expression class `\d` without the ECMAScript option: the
   * Unicode decimal digits (category Nd). The matcher walks UTF-16 code
   * units, so only the ten-digit blocks of the Basic Multilingual Plane
   * count; a digit outside it is a surrogate pair to the matcher and no
   * digit at all.
   */
  predicate IsDecimalDigit(c: char) {
    var n := c as int;
    || 0x30 <= n <= 0x39 || 0x660 <= n <= 0x669 || 0x6F0 <= n <= 0x6F9 || 0x7C0 <= n <= 0x7C9
    || 0x966 <= n <= 0x96F || 0x9E6 <= n <= 0x9EF || 0xA66 <= n <= 0xA6F || 0xAE6 <= n <= 0xAEF
    || 0xB66 <= n <= 0xB6F || 0xBE6 <= n <= 0xBEF || 0xC66 <= n <= 0xC6F || 0xCE6 <= n <= 0xCEF
    || 0xD66 <= n <= 0xD6F || 0xDE6 <= n <= 0xDEF || 0xE50 <= n <= 0xE59 || 0xED0 <= n <= 0xED9
    || 0xF20 <= n <= 0xF29 || 0x1040 <= n <= 0x1049 || 0x1090 <= n <= 0x1099 || 0x17E0 <= n <= 0x17E9
    || 0x1810 <= n <= 0x1819 || 0x1946 <= n <= 0x194F || 0x19D0 <= n <= 0x19D9 || 0x1A80 <= n <= 0x1A89
    || 0x1A90 <= n <= 0x1A99 || 0x1B50 <= n <= 0x1B59 || 0x1BB0 <= n <= 0x1BB9 || 0x1C40 <= n <= 0x1C49
    || 0x1C50 <= n <= 0x1C59 || 0xA620 <= n <= 0xA629 || 0xA8D0 <= n <= 0xA8D9 || 0xA900 <= n <= 0xA909
    || 0xA9D0 <= n <= 0xA9D9 || 0xA9F0 <= n <= 0xA9F9 || 0xAA50 <= n <= 0xAA59 || 0xABF0 <= n <= 0xABF9
    || 0xFF10 <= n <= 0xFF19
  }

  predicate AllDecimalDigits(s: string) {
    forall i :: 0 <= i < |s| ==> IsDecimalDigit(s[i])
  }

  /** `string.IsNullOrWhiteSpace` on a non-null string. */
  predicate IsBlank(s: string) {
    forall i :: 0 <= i < |s| ==> IsWhiteSpace(s[i])
  }
}
