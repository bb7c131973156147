/** Digit strings: lower-case hexadecimal and decimal rendering with zero padding, and their
    parsers. These are the formatting primitives behind Python's `f"{v:0Nx}"`, `f"{n}"` and
    `int(s, 16)` as the scripts and the register-file generator use them. */
module Text {
  import opened Wrappers

  function Pow(b: nat, n: nat): (r: nat)
    requires b >= 1
    ensures r >= 1
  {
    if n == 0 then 1 else b * Pow(b, n - 1)
  }

  lemma PowMonotone(b: nat, m: nat, n: nat)
    requires b >= 1 && m <= n
    ensures Pow(b, m) <= Pow(b, n)
  {
    if m < n {
      PowMonotone(b, m, n - 1);
    }
  }

  const HexAlphabet: string := "0123456789abcdef"

  function HexChar(d: nat): (c: char)
    requires d < 16
  {
    HexAlphabet[d]
  }

  /** The value of one ASCII hexadecimal digit, either case, as `int(c, 16)` reads it. */
  function HexValue(c: char): (r: Option<nat>)
    ensures r.Some? ==> r.value < 16
  {
    if '0' <= c <= '9' then Some(c as int - '0' as int)
    else if 'a' <= c <= 'f' then Some(c as int - 'a' as int + 10)
    else if 'A' <= c <= 'F' then Some(c as int - 'A' as int + 10)
    else None
  }

  function DecValue(c: char): (r: Option<nat>)
    ensures r.Some? ==> r.value < 10
  {
    if '0' <= c <= '9' then Some(c as int - '0' as int) else None
  }

  lemma HexValueOfHexChar(d: nat)
    requires d < 16
    ensures HexValue(HexChar(d)) == Some(d)
  {
  }

  /** Digits of `v` in the given base, most significant first, no leading zeros ("0" for zero). */
  function Digits(v: nat, base: nat): (s: string)
    requires 2 <= base <= 16
    ensures |s| >= 1
    decreases v
  {
    if v < base then [HexChar(v)] else Digits(v / base, base) + [HexChar(v % base)]
  }

  function HexDigits(v: nat): string { Digits(v, 16) }

  function Decimal(n: nat): string { Digits(n, 10) }

  /** Left-pads with '0' up to `width` characters; longer strings are left alone. */
  function ZeroPad(s: string, width: nat): (r: string)
    ensures |r| == if |s| < width then width else |s|
  {
    if |s| < width then seq(width - |s|, _ => '0') + s else s
  }

  /** Python's `f"{v:0{width}x}"` for a non-negative `v`. */
  function FormatHex(v: nat, width: nat): string
  {
    ZeroPad(HexDigits(v), width)
  }

  /** Value of a digit string read most significant first, in the given base; `None` when a
      character is not a digit of that base or the string is empty. */
  function ParseDigits(s: string, base: nat): (r: Option<nat>)
    requires 2 <= base <= 16
    decreases |s|
  {
    if |s| == 0 then None
    else
      var d := HexValue(s[|s| - 1]);
      if d.None? || d.value >= base then None
      else if |s| == 1 then Some(d.value)
      else
        var hi := ParseDigits(s[..|s| - 1], base);
        if hi.None? then None else Some(hi.value * base + d.value)
  }

  function ParseHexDigits(s: string): Option<nat> { ParseDigits(s, 16) }

  /** Reading back the digits of a value in any base gives the value. */
  lemma {:induction false} DigitsRoundTrip(v: nat, base: nat)
    requires 2 <= base <= 16
    ensures ParseDigits(Digits(v, base), base) == Some(v)
    decreases v
  {
    if v < base {
      HexValueOfHexChar(v);
    } else {
      var q := v / base;
      var d := v % base;
      DivSplit(v, base);
      var hi := Digits(q, base);
      assert Digits(v, base) == hi + [HexChar(d)];
      assert ParseDigits(hi, base) == Some(q) by {
        DigitsRoundTrip(q, base);
      }
      assert HexValue(HexChar(d)) == Some(d) by {
        HexValueOfHexChar(d);
      }
      ParseAppend(hi, HexChar(d), base);
    }
  }

  lemma DivSplit(v: nat, base: nat)
    requires 2 <= base <= v
    ensures v / base < v && (v / base) * base + v % base == v
  {
  }

  /** Appending one digit multiplies the value read so far by the base and adds the digit. */
  lemma ParseAppend(s: string, c: char, base: nat)
    requires 2 <= base <= 16 && |s| >= 1
    requires ParseDigits(s, base).Some? && HexValue(c).Some? && HexValue(c).value < base
    ensures ParseDigits(s + [c], base) == Some(ParseDigits(s, base).value * base + HexValue(c).value)
  {
    var t := s + [c];
    assert t[..|t| - 1] == s;
    assert t[|t| - 1] == c;
  }

  /** Leading zeros do not change the parsed value. */
  lemma {:induction false} ZeroPrefixParse(z: nat, s: string, base: nat)
    requires 2 <= base <= 16
    requires ParseDigits(s, base).Some?
    ensures ParseDigits(seq(z, _ => '0') + s, base) == ParseDigits(s, base)
    decreases |s|
  {
    var t := seq(z, _ => '0') + s;
    if z == 0 {
      assert t == s;
    } else {
      LastOfPrefixed(seq(z, _ => '0'), s);
      if |s| == 1 {
        assert t[..|t| - 1] == seq(z, _ => '0');
        ZerosParse(z, base);
      } else {
        ZeroPrefixParse(z, s[..|s| - 1], base);
      }
    }
  }

  /** Dropping the last character of a prefixed string drops it from the suffix. */
  lemma LastOfPrefixed(p: string, s: string)
    requires |s| >= 1
    ensures (p + s)[|p + s| - 1] == s[|s| - 1]
    ensures (p + s)[..|p + s| - 1] == p + s[..|s| - 1]
  {
  }

  lemma {:induction false} ZerosParse(z: nat, base: nat)
    requires 2 <= base <= 16 && z >= 1
    ensures ParseDigits(seq(z, _ => '0'), base) == Some(0)
  {
    var t := seq(z, _ => '0');
    if z > 1 {
      assert t[..|t| - 1] == seq(z - 1, _ => '0');
      ZerosParse(z - 1, base);
    }
  }

  /** Reading back a zero-padded hexadecimal rendering gives the value. */
  lemma FormatHexRoundTrip(v: nat, width: nat)
    ensures ParseHexDigits(FormatHex(v, width)) == Some(v)
  {
    DigitsRoundTrip(v, 16);
    var s := HexDigits(v);
    if |s| < width {
      ZeroPrefixParse(width - |s|, s, 16);
    }
  }

  /** A value below `16^n` has at most `n` hexadecimal digits. */
  lemma {:induction false} HexDigitsLength(v: nat, n: nat)
    requires n >= 1 && v < Pow(16, n)
    ensures |HexDigits(v)| <= n
    decreases v
  {
    if v >= 16 {
      assert n >= 2;
      assert Pow(16, n) == 16 * Pow(16, n - 1);
      HexDigitsLength(v / 16, n - 1);
      assert HexDigits(v) == HexDigits(v / 16) + [HexChar(v % 16)];
    }
  }

  /** Padding a value below `16^width` to `width` digits yields exactly `width` digits. */
  lemma FormatHexLength(v: nat, width: nat)
    requires width >= 1 && v < Pow(16, width)
    ensures |FormatHex(v, width)| == width
  {
    HexDigitsLength(v, width);
  }

  predicate IsLowerHexDigit(c: char) { '0' <= c <= '9' || 'a' <= c <= 'f' }

  lemma {:induction false} DigitsAreLowerHex(v: nat, base: nat)
    requires 2 <= base <= 16
    ensures forall i :: 0 <= i < |Digits(v, base)| ==> IsLowerHexDigit(Digits(v, base)[i])
    decreases v
  {
    if v >= base {
      DigitsAreLowerHex(v / base, base);
    }
  }

  lemma FormatHexIsLowerHex(v: nat, width: nat)
    ensures forall i :: 0 <= i < |FormatHex(v, width)| ==> IsLowerHexDigit(FormatHex(v, width)[i])
  {
    DigitsAreLowerHex(v, 16);
  }

  /** The characters Python's `str.strip()` removes from a text-mode string: those for which
      `str.isspace()` holds (the ASCII control separators, the Unicode space separators, and
      the line and paragraph separators). */
  predicate IsSpace(c: char)
  {
    if c <= ' ' then '\t' <= c <= '\r' || '\U{001C}' <= c
    else if c < '\U{0085}' then false
    else
      || c == '\U{0085}' || c == '\U{00A0}' || c == '\U{1680}' || ('\U{2000}' <= c <= '\U{200A}')
      || c == '\U{2028}' || c == '\U{2029}' || c == '\U{202F}' || c == '\U{205F}' || c == '\U{3000}'
  }

  function StripLeft(s: string): (r: string)
    ensures |r| <= |s| && r == s[|s| - |r|..]
    ensures |r| > 0 ==> !IsSpace(r[0])
    ensures forall i :: 0 <= i < |s| - |r| ==> IsSpace(s[i])
  {
    if |s| > 0 && IsSpace(s[0]) then
      var r := StripLeft(s[1..]);
      assert s[1..][|s| - 1 - |r|..] == s[|s| - |r|..];
      assert forall i :: 1 <= i < |s| - |r| ==> s[i] == s[1..][i - 1];
      r
    else s
  }

  function StripRight(s: string): (r: string)
    ensures |r| <= |s| && r == s[..|r|]
    ensures |r| > 0 ==> !IsSpace(r[|r| - 1])
    ensures forall i :: |r| <= i < |s| ==> IsSpace(s[i])
  {
    if |s| > 0 && IsSpace(s[|s| - 1]) then
      var r := StripRight(s[..|s| - 1]);
      assert s[..|s| - 1][..|r|] == s[..|r|];
      assert forall i :: |r| <= i < |s| - 1 ==> s[i] == s[..|s| - 1][i];
      r
    else s
  }

  /** Python's `s.strip()`: whitespace removed from both ends. */
  function Strip(s: string): (r: string)
    ensures |r| <= |s|
    ensures |r| > 0 ==> !IsSpace(r[0]) && !IsSpace(r[|r| - 1])
  {
    StripRight(StripLeft(s))
  }

  /** `s` is whitespace up to `i`, then `r`, then whitespace to the end: the part of `s` from
      `i` on begins with `r` and continues with whitespace only. */
  predicate InfixOf(s: string, r: string, i: int)
  {
    && 0 <= i <= |s| && |r| <= |s| - i
    && (forall j :: 0 <= j < i ==> IsSpace(s[j]))
    && r == s[i..][..|r|]
    && (forall j :: |r| <= j < |s| - i ==> IsSpace(s[i..][j]))
  }

  /** What `strip()` leaves is a piece of the string with only whitespace around it and none
      at its ends; so it is the longest such piece, and the empty string only when the whole
      string is whitespace. */
  lemma StripIsInfix(s: string)
    ensures exists i :: InfixOf(s, Strip(s), i)
    ensures Strip(s) == [] <==> forall j :: 0 <= j < |s| ==> IsSpace(s[j])
  {
    var l := StripLeft(s);
    var i := |s| - |l|;
    var r := StripRight(l);
    assert Strip(s) == r;
    assert l == s[i..];
    assert InfixOf(s, r, i);
    if r == [] {
      assert l == [];
    } else {
      assert r[0] == l[0] == s[i];
      assert !IsSpace(s[i]);
    }
  }

  /** A string with no whitespace at either end is its own stripped form. */
  lemma StripUnpadded(s: string)
    requires |s| > 0 && !IsSpace(s[0]) && !IsSpace(s[|s| - 1])
    ensures Strip(s) == s
  {
    assert StripLeft(s) == s;
  }

  /** A line read from a file, newline included, strips to its unpadded content. */
  lemma StripNewline(t: string)
    requires |t| > 0 && !IsSpace(t[0]) && !IsSpace(t[|t| - 1])
    ensures Strip(t + "\n") == t
  {
    var l := t + "\n";
    assert StripLeft(l) == l;
    assert l[..|l| - 1] == t;
    assert StripRight(t) == t;
  }

  predicate StartsWith(s: string, prefix: string)
  {
    |prefix| <= |s| && s[..|prefix|] == prefix
  }
}
