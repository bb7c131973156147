/** Python's `int(s, 16)` and `int(s, 0)` on an already stripped string: an optional sign,
    a base prefix, and at least one digit. Only ASCII digits are read: the non-ASCII decimal
    digits Python maps to ASCII ones, and underscore digit separators, are not modelled. */
module PythonInt {
  import opened Wrappers
  import opened Text

  function Sign(s: string): (r: (int, string))
    ensures r.0 == 1 || r.0 == -1
    ensures |r.1| <= |s|
  {
    if |s| > 0 && s[0] == '-' then (-1, s[1..])
    else if |s| > 0 && s[0] == '+' then (1, s[1..])
    else (1, s)
  }

  function Signed(sign: int, magnitude: Option<nat>): Option<int>
  {
    if magnitude.None? then None else Some(sign * magnitude.value)
  }

  predicate HasPrefix(s: string, lower: char, upper: char)
  {
    |s| >= 2 && s[0] == '0' && (s[1] == lower || s[1] == upper)
  }

  /** `int(s, 16)`: sign, optional `0x`/`0X`, then hexadecimal digits of either case. */
  function ParseBase16(s: string): (r: Option<int>)
    ensures |s| == 0 ==> r.None?
  {
    var (sign, body) := Sign(s);
    var digits := if HasPrefix(body, 'x', 'X') then body[2..] else body;
    Signed(sign, ParseDigits(digits, 16))
  }

  /** Decimal digits as `int(s, 0)` accepts them: a leading zero only in an all-zero string. */
  function ParseDecimal(s: string): Option<nat>
  {
    if |s| > 0 && s[0] == '0' && exists i :: 0 <= i < |s| && s[i] != '0' then None
    else ParseDigits(s, 10)
  }

  /** `int(s, 0)`: the base comes from the prefix (`0x`, `0o`, `0b`, either case), else decimal. */
  function ParseBase0(s: string): (r: Option<int>)
    ensures |s| == 0 ==> r.None?
  {
    var (sign, body) := Sign(s);
    var magnitude :=
      if HasPrefix(body, 'x', 'X') then ParseDigits(body[2..], 16)
      else if HasPrefix(body, 'o', 'O') then ParseDigits(body[2..], 8)
      else if HasPrefix(body, 'b', 'B') then ParseDigits(body[2..], 2)
      else ParseDecimal(body);
    Signed(sign, magnitude)
  }

  /** A zero-padded hexadecimal rendering, with or without `0x`, reads back as its value. */
  lemma ParseBase16OfFormatHex(v: nat, width: nat)
    ensures ParseBase16(FormatHex(v, width)) == Some(v)
    ensures ParseBase16("0x" + FormatHex(v, width)) == Some(v)
  {
    FormatHexRoundTrip(v, width);
    var f := FormatHex(v, width);
    FormatHexIsLowerHex(v, width);
    assert |f| >= 1;
    assert f[0] != '-' && f[0] != '+';
    if |f| >= 2 && f[0] == '0' {
      assert f[1] != 'x' && f[1] != 'X';
    }
    var g := "0x" + f;
    assert g[2..] == f;
  }

  lemma ParseBase0OfHex(v: nat, width: nat)
    ensures ParseBase0("0x" + FormatHex(v, width)) == Some(v)
  {
    FormatHexRoundTrip(v, width);
    var g := "0x" + FormatHex(v, width);
    assert g[2..] == FormatHex(v, width);
  }
}
