/** Two lower-case hexadecimal digits per byte, as `toHex` prints them
    (app/lib/EncryptService.cpp) and JSON escapes control characters. */
module Hex {
  import opened Options

  /** A `char` that is one byte. */
  predicate IsByte(c: char) { c as int < 256 }

  predicate IsByteText(s: string) { forall i | 0 <= i < |s| :: IsByte(s[i]) }

  function HexDigit(d: nat): (c: char)
    requires d < 16
    ensures '0' <= c <= '9' || 'a' <= c <= 'f'
  {
    if d < 10 then ('0' as int + d) as char else ('a' as int + d - 10) as char
  }

  lemma HexDigitsAscend(d: nat, e: nat)
    requires d < e < 16
    ensures HexDigit(d) < HexDigit(e)
  {}

  /** Value of a digit; `std::stoi(.., 16)` also takes upper case. */
  function HexValue(c: char): (v: Option<nat>)
    ensures v.Some? ==> v.value < 16
  {
    if '0' <= c <= '9' then Some(c as int - '0' as int)
    else if 'a' <= c <= 'f' then Some(c as int - 'a' as int + 10)
    else if 'A' <= c <= 'F' then Some(c as int - 'A' as int + 10)
    else None
  }

  lemma HexValueOfDigit(d: nat)
    requires d < 16
    ensures HexValue(HexDigit(d)) == Some(d)
  {}

  function HexByte(c: char): (s: string)
    requires IsByte(c)
    ensures |s| == 2
  {
    [HexDigit(c as int / 16), HexDigit(c as int % 16)]
  }

  function ByteOfHex(hi: char, lo: char): (r: Option<char>)
    ensures r.Some? ==> IsByte(r.value)
  {
    match (HexValue(hi), HexValue(lo))
    case (Some(h), Some(l)) => Some((16 * h + l) as char)
    case _ => None
  }

  lemma ByteOfHexByte(c: char)
    requires IsByte(c)
    ensures ByteOfHex(HexByte(c)[0], HexByte(c)[1]) == Some(c)
  {
    HexValueOfDigit(c as int / 16);
    HexValueOfDigit(c as int % 16);
  }
}
