/** Which characters count as digits, after the character database of Unicode 15.0. Python's
    isdigit accepts more characters than its int reads. */
module Digits {
  import opened Tables

  /** A decimal digit with its value, a digit that is not decimal, such as a superscript, or
      none. */
  datatype Digit = Decimal(value: nat) | OtherDigit | NoDigit

  /** The last zero of some script's decimal digits that is not above a code; each such zero is
      followed by its one to nine. */
  function ZeroBelow(code: int): int {
    if code >= 0x1FBF0 then 0x1FBF0
    else if code >= 0x1E950 then 0x1E950
    else if code >= 0x1E4F0 then 0x1E4F0
    else if code >= 0x1E2F0 then 0x1E2F0
    else if code >= 0x1E140 then 0x1E140
    else if code >= 0x1D7F6 then 0x1D7F6
    else if code >= 0x1D7EC then 0x1D7EC
    else if code >= 0x1D7E2 then 0x1D7E2
    else if code >= 0x1D7D8 then 0x1D7D8
    else if code >= 0x1D7CE then 0x1D7CE
    else if code >= 0x16B50 then 0x16B50
    else if code >= 0x16AC0 then 0x16AC0
    else if code >= 0x16A60 then 0x16A60
    else if code >= 0x11F50 then 0x11F50
    else if code >= 0x11DA0 then 0x11DA0
    else if code >= 0x11D50 then 0x11D50
    else if code >= 0x11C50 then 0x11C50
    else if code >= 0x11950 then 0x11950
    else if code >= 0x118E0 then 0x118E0
    else if code >= 0x11730 then 0x11730
    else if code >= 0x116C0 then 0x116C0
    else if code >= 0x11650 then 0x11650
    else if code >= 0x114D0 then 0x114D0
    else if code >= 0x11450 then 0x11450
    else if code >= 0x112F0 then 0x112F0
    else if code >= 0x111D0 then 0x111D0
    else if code >= 0x11136 then 0x11136
    else if code >= 0x110F0 then 0x110F0
    else if code >= 0x11066 then 0x11066
    else if code >= 0x10D30 then 0x10D30
    else if code >= 0x104A0 then 0x104A0
    else if code >= 0xFF10 then 0xFF10
    else if code >= 0xABF0 then 0xABF0
    else if code >= 0xAA50 then 0xAA50
    else if code >= 0xA9F0 then 0xA9F0
    else if code >= 0xA9D0 then 0xA9D0
    else if code >= 0xA900 then 0xA900
    else if code >= 0xA8D0 then 0xA8D0
    else if code >= 0xA620 then 0xA620
    else if code >= 0x1C50 then 0x1C50
    else if code >= 0x1C40 then 0x1C40
    else if code >= 0x1BB0 then 0x1BB0
    else if code >= 0x1B50 then 0x1B50
    else if code >= 0x1A90 then 0x1A90
    else if code >= 0x1A80 then 0x1A80
    else if code >= 0x19D0 then 0x19D0
    else if code >= 0x1946 then 0x1946
    else if code >= 0x1810 then 0x1810
    else if code >= 0x17E0 then 0x17E0
    else if code >= 0x1090 then 0x1090
    else if code >= 0x1040 then 0x1040
    else if code >= 0xF20 then 0xF20
    else if code >= 0xED0 then 0xED0
    else if code >= 0xE50 then 0xE50
    else if code >= 0xDE6 then 0xDE6
    else if code >= 0xD66 then 0xD66
    else if code >= 0xCE6 then 0xCE6
    else if code >= 0xC66 then 0xC66
    else if code >= 0xBE6 then 0xBE6
    else if code >= 0xB66 then 0xB66
    else if code >= 0xAE6 then 0xAE6
    else if code >= 0xA66 then 0xA66
    else if code >= 0x9E6 then 0x9E6
    else if code >= 0x966 then 0x966
    else if code >= 0x7C0 then 0x7C0
    else if code >= 0x6F0 then 0x6F0
    else if code >= 0x660 then 0x660
    else 0x30
  }

  /** Digits that are not decimal. */
  predicate OtherDigitCode(code: int) {
    || 0xB2 <= code <= 0xB3
    || code == 0xB9
    || 0x1369 <= code <= 0x1371
    || code == 0x19DA
    || code == 0x2070
    || 0x2074 <= code <= 0x2079
    || 0x2080 <= code <= 0x2089
    || 0x2460 <= code <= 0x2468
    || 0x2474 <= code <= 0x247C
    || 0x2488 <= code <= 0x2490
    || code == 0x24EA
    || 0x24F5 <= code <= 0x24FD
    || code == 0x24FF
    || 0x2776 <= code <= 0x277E
    || 0x2780 <= code <= 0x2788
    || 0x278A <= code <= 0x2792
    || 0x10A40 <= code <= 0x10A43
    || 0x10E60 <= code <= 0x10E68
    || 0x11052 <= code <= 0x1105A
    || 0x1F100 <= code <= 0x1F10A
  }

  function DigitOf(c: char): Digit {
    var code := c as int;
    var zero := ZeroBelow(code);
    if zero <= code < zero + 10 then Decimal(code - zero)
    else if OtherDigitCode(code) then OtherDigit else NoDigit
  }

  /** Python's isdigit. */
  predicate IsDigit(text: string) {
    text != "" && forall i :: 0 <= i < |text| ==> !DigitOf(text[i]).NoDigit?
  }

  /** The longest text Python's int reads. */
  const INT_DIGITS := 4300

  predicate Decimals(text: string) {
    forall i :: 0 <= i < |text| ==> DigitOf(text[i]).Decimal?
  }

  /** The texts of digits that Python's int reads. */
  predicate IsNumber(text: string) {
    0 < |text| <= INT_DIGITS && Decimals(text)
  }

  function Number(text: string): nat
    requires Decimals(text)
  {
    if text == "" then 0 else 10 * Number(text[..|text| - 1]) + DigitOf(text[|text| - 1]).value
  }

  /** A superscript two is a digit that int does not read; an Arabic-Indic three is a three. */
  lemma ForeignDigits()
    ensures IsDigit("\U{00B2}") && !IsNumber("\U{00B2}")
    ensures IsNumber("\U{0663}") && Number("\U{0663}") == 3
  {
    var two, three := "\U{00B2}", "\U{0663}";
    assert two[0] as int == 0xB2 && three[0] as int == 0x663;
    assert DigitOf(three[0]) == Decimal(3);
    assert three[..0] == "";
  }

  /** A number written in decimal, without leading zeros. */
  function Written(n: nat): (text: string)
    ensures text != ""
  {
    if n < 10 then [(0x30 + n) as char] else Written(n / 10) + [(0x30 + n % 10) as char]
  }

  /** Reading a written number gives it back. */
  lemma {:induction false} ReadsWhatIsWritten(n: nat)
    ensures Decimals(Written(n)) && Number(Written(n)) == n
  {
    AsciiDigit(n % 10);
    if n < 10 {
      assert Written(n)[..0] == "";
    } else {
      ReadsWhatIsWritten(n / 10);
      assert Written(n)[..|Written(n)| - 1] == Written(n / 10);
    }
  }

  lemma AsciiDigit(d: nat)
    requires d < 10
    ensures DigitOf((0x30 + d) as char) == Decimal(d)
  {
  }
}
