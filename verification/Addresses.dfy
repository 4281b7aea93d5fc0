/** Account addresses as text: `0x` and 40 hexadecimal digits in upper and lower case. */
module Addresses {
  import opened Common
  import opened Strings

  type Nibble = n: nat | n < 16
  type Address = a: seq<Nibble> | |a| == 40 witness seq(40, i => 0)

  /** Which digits of an address a checksum capitalizes. */
  type Casing = (Address, nat) -> bool

  function HexDigit(d: Nibble, upper: bool): (c: char)
    ensures HexValue(c) == Some(d) && !IsSpace(c) && c != ':'
  {
    if d < 10 then '0' + d as char else if upper then 'A' + (d - 10) as char else 'a' + (d - 10) as char
  }

  function HexValue(c: char): Option<Nibble> {
    if '0' <= c <= '9' then Some((c - '0') as nat)
    else if 'a' <= c <= 'f' then Some((c - 'a') as nat + 10)
    else if 'A' <= c <= 'F' then Some((c - 'A') as nat + 10)
    else None
  }

  function PrintAddress(a: Address, casing: Casing): (s: string)
    ensures |s| == 42 && NoSpace(s) && Lacks(s, ':')
  {
    var digits := seq(40, i requires 0 <= i < 40 => HexDigit(a[i], casing(a, i)));
    assert forall i :: 0 <= i < 40 ==> digits[i] == HexDigit(a[i], casing(a, i));
    "0x" + digits
  }

  /** 40 digits in any case, with or without the prefix. */
  function ParseAddress(s: string): Option<Address> {
    var digits := if |s| >= 2 && s[..2] == "0x" then s[2..] else s;
    if |digits| == 40 && forall i :: 0 <= i < 40 ==> HexValue(digits[i]).Some?
    then Some(seq(40, i requires 0 <= i < 40 => HexValue(digits[i]).value))
    else None
  }

  /** Whatever the casing, a printed address is read back. */
  lemma ParsePrintAddress(a: Address, casing: Casing)
    ensures ParseAddress(PrintAddress(a, casing)) == Some(a)
  {
    var s := PrintAddress(a, casing);
    assert forall i :: 0 <= i < 40 ==> s[2..][i] == HexDigit(a[i], casing(a, i));
    assert s[..2] == "0x";
    assert ParseAddress(s).value == a;
  }
}
