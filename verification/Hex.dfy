/** Two-digit hexadecimal escapes of one byte, as used by percent-encoding (section 2.1 of RFC 3986). */
module Hex {
  import opened Text

  function HexDigit(n: int): char
    requires 0 <= n < 16
  {
    "0123456789ABCDEF"[n]
  }

  function HexValue(c: char): (n: int)
    ensures -1 <= n < 16
  {
    if '0' <= c <= '9' then c as int - '0' as int
    else if 'A' <= c <= 'F' then c as int - 'A' as int + 10
    else if 'a' <= c <= 'f' then c as int - 'a' as int + 10
    else -1
  }

  /** fmt's %%%02X. */
  function Escape(c: Byte): string {
    ['%', HexDigit(c as int / 16), HexDigit(c as int % 16)]
  }

  predicate IsEscape(s: string) {
    |s| >= 3 && s[0] == '%' && HexValue(s[1]) >= 0 && HexValue(s[2]) >= 0
  }

  function Unescape(s: string): Byte
    requires IsEscape(s)
  {
    (HexValue(s[1]) * 16 + HexValue(s[2])) as char
  }

  /** Digits of either case are read. */
  lemma HexDigitValue(n: int)
    requires 0 <= n < 16
    ensures HexValue(HexDigit(n)) == n && HexValue("0123456789abcdef"[n]) == n
    ensures var c := HexDigit(n); '0' <= c <= '9' || 'A' <= c <= 'F'
  {
  }

  lemma UnescapeEscape(c: Byte)
    ensures IsEscape(Escape(c)) && Unescape(Escape(c)) == c
    ensures forall i :: 1 <= i < 3 ==> '0' <= Escape(c)[i] <= '9' || 'A' <= Escape(c)[i] <= 'F'
  {
    HexDigitValue(c as int / 16);
    HexDigitValue(c as int % 16);
  }
}
