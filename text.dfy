/** Python string operations the engine relies on: case folding, substring and
    prefix tests, `str.lstrip` with a character set, and hexadecimal digits. */
module Text {
  import opened Prelude

  /** `str.casefold` on one character, restricted to ASCII letters. */
  function FoldChar(c: char): (r: char)
    ensures 'A' <= c <= 'Z' ==> r as int == c as int + 32
    ensures !('A' <= c <= 'Z') ==> r == c
  {
    if 'A' <= c <= 'Z' then (c as int + 32) as char else c
  }

  function Fold(s: string): (r: string)
    ensures |r| == |s|
    ensures forall i :: 0 <= i < |s| ==> r[i] == FoldChar(s[i])
  {
    if s == [] then [] else [FoldChar(s[0])] + Fold(s[1..])
  }

  /** `p in s` for strings: `p` occurs in `s` as a contiguous block. */
  predicate Contains(s: string, p: string)
  {
    p <= s || (s != [] && Contains(s[1..], p))
  }

  /** `s.startswith(p)`. */
  predicate StartsWith(s: string, p: string)
  {
    p <= s
  }

  /** `s.lstrip(chars)`: drops leading characters that belong to the SET `chars`. */
  function LStrip(s: string, chars: string): (r: string)
    ensures |r| <= |s|
  {
    if s != [] && s[0] in chars then LStrip(s[1..], chars) else s
  }

  /** The result is a suffix of the input, every removed character is in the
      set, and the result is empty or starts outside the set. */
  lemma {:induction false} LStripSpec(s: string, chars: string)
    ensures var r := LStrip(s, chars);
      r == s[|s| - |r|..]
      && (forall i :: 0 <= i < |s| - |r| ==> s[i] in chars)
      && (r == [] || r[0] !in chars)
  {
    if s != [] && s[0] in chars {
      LStripSpec(s[1..], chars);
      var r := LStrip(s, chars);
      assert s[1..][|s| - 1 - |r|..] == s[|s| - |r|..];
      forall i | 0 <= i < |s| - |r| ensures s[i] in chars {
        if i > 0 {
          assert s[i] == s[1..][i - 1];
        }
      }
    }
  }

  // ---------------------------------------------------------------- hexadecimal

  const HexDigits: string := "0123456789abcdef"

  predicate IsLowerHexDigit(c: char)
  {
    '0' <= c <= '9' || 'a' <= c <= 'f'
  }

  function Digit(d: nat): (c: char)
    requires d < 16
    ensures IsLowerHexDigit(c)
  {
    HexDigits[d]
  }

  /** The value of one digit as `int(c, 16)` reads it, either case. */
  function DigitValue(c: char): (r: Option<nat>)
    ensures r.Some? ==> r.value < 16
    ensures r.Some? <==> ('0' <= c <= '9' || 'a' <= c <= 'f' || 'A' <= c <= 'F')
  {
    if '0' <= c <= '9' then Some(c as nat - '0' as nat)
    else if 'a' <= c <= 'f' then Some(c as nat - 'a' as nat + 10)
    else if 'A' <= c <= 'F' then Some(c as nat - 'A' as nat + 10)
    else None
  }

  lemma DigitValueOfDigit(d: nat)
    requires d < 16
    ensures DigitValue(Digit(d)) == Some(d)
  {
    assert HexDigits[d] == "0123456789abcdef"[d];
  }

  /** The digits of `hex(n)` without the `0x` prefix: no leading zeros. */
  function Hex(n: nat): (r: string)
    decreases n
  {
    if n < 16 then [Digit(n)] else Hex(n / 16) + [Digit(n % 16)]
  }

  /** `int(s, 16)` for a string made only of hexadecimal digits; any other
      string is a ValueError, shown as None. */
  function ParseHex(s: string): (r: Option<nat>)
  {
    if s == [] then None
    else
      var d := DigitValue(s[|s| - 1]);
      if d.None? then None
      else if |s| == 1 then Some(d.value)
      else
        match ParseHex(s[..|s| - 1])
        case None => None
        case Some(p) => Some(p * 16 + d.value)
  }

  lemma {:induction false} HexIsLowerDigits(n: nat)
    ensures |Hex(n)| > 0
    ensures forall i :: 0 <= i < |Hex(n)| ==> IsLowerHexDigit(Hex(n)[i])
    ensures |Hex(n)| > 1 ==> Hex(n)[0] != '0'
    decreases n
  {
    if n >= 16 {
      HexIsLowerDigits(n / 16);
      if |Hex(n / 16)| == 1 {
        assert Hex(n / 16) == [Digit(n / 16)];
        assert n / 16 != 0;
        assert Digit(n / 16) != '0' by { assert HexDigits[n / 16] != '0'; }
      }
    }
  }

  /** Round trip: reading back the digits `hex()` prints gives the number. */
  lemma {:induction false} ParseHexOfHex(n: nat)
    ensures ParseHex(Hex(n)) == Some(n)
    decreases n
  {
    if n < 16 {
      DigitValueOfDigit(n);
    } else {
      var s := Hex(n);
      assert s[..|s| - 1] == Hex(n / 16);
      DigitValueOfDigit(n % 16);
      ParseHexOfHex(n / 16);
    }
  }

  /** Appending one digit to a parsable string shifts its value by one digit. */
  lemma ParseHexSnoc(s: string, d: nat)
    requires d < 16
    requires ParseHex(s).Some?
    ensures ParseHex(s + [Digit(d)]) == Some(ParseHex(s).value * 16 + d)
  {
    var t := s + [Digit(d)];
    assert t[..|t| - 1] == s;
    DigitValueOfDigit(d);
  }

  /** The same for any character `int(c, 16)` accepts. */
  lemma ParseHexSnocChar(s: string, c: char)
    requires ParseHex(s).Some? && DigitValue(c).Some?
    ensures ParseHex(s + [c]) == Some(ParseHex(s).value * 16 + DigitValue(c).value)
  {
    var t := s + [c];
    assert t[..|t| - 1] == s && t[|t| - 1] == c;
  }

  /** Python's `"%02x" % v`: at least two digits, zero padded; a negative
      value is printed as a minus sign followed by the digits of its magnitude. */
  function Hex02(v: int): (r: string)
  {
    if v < 0 then "-" + Hex(-v)
    else if v < 16 then "0" + Hex(v)
    else Hex(v)
  }

  /** An 8-bit value prints as exactly two lower-case digits: the high nibble and the low nibble. */
  lemma Hex02Byte(v: int)
    requires 0 <= v < 256
    ensures Hex02(v) == [Digit(v / 16), Digit(v % 16)]
  {
    if v < 16 {
      assert Hex02(v) == "0" + [Digit(v)];
      assert Digit(0) == '0';
    } else {
      assert Hex(v / 16) == [Digit(v / 16)];
    }
  }
}
