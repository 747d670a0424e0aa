/** Colour strings: the six-digit `%02x%02x%02x` of three channels (GServer.py
    line 273) and `compressHexColor`, which keeps the high nibble of each
    8-bit channel (lines 206-209). */
module ColorEncoding {
  import opened Prelude
  import opened Text
  import opened Numeric
  import opened Scaling

  /** `"%02x%02x%02x" % (int(r), int(g), int(b))`; `int(-inf)` raises OverflowError. */
  function HexColor(r: Level, g: Level, b: Level): (c: Result<string>)
    ensures c.Err? <==> r.NegInf? || g.NegInf? || b.NegInf?
    ensures c.Err? ==> c.error == OverflowError
  {
    if r.NegInf? || g.NegInf? || b.NegInf? then Err(OverflowError)
    else Ok(Hex02(r.n) + Hex02(g.n) + Hex02(b.n))
  }

  predicate IsByte(l: Level)
  {
    l.Finite? && 0 <= l.n < 256
  }

  lemma ParseTwoDigits(hi: nat, lo: nat)
    requires hi < 16 && lo < 16
    ensures ParseHex([Digit(hi), Digit(lo)]) == Some(hi * 16 + lo)
  {
    DigitValueOfDigit(hi);
    assert ParseHex([Digit(hi)]) == Some(hi);
    ParseHexSnoc([Digit(hi)], lo);
    assert [Digit(hi)] + [Digit(lo)] == [Digit(hi), Digit(lo)];
  }

  /** One 8-bit channel prints as two lower-case digits that read back as the channel. */
  lemma ChannelRoundTrip(v: int)
    requires 0 <= v < 256
    ensures |Hex02(v)| == 2 && IsLowerHexDigit(Hex02(v)[0]) && IsLowerHexDigit(Hex02(v)[1])
    ensures ParseHex(Hex02(v)) == Some(v)
  {
    Hex02Byte(v);
    ParseTwoDigits(v / 16, v % 16);
  }

  /** Reading `s` followed by two more digits shifts the value of `s` by one byte. */
  lemma ParseHexAppendByte(s: string, t: string)
    requires ParseHex(s).Some? && |t| == 2 && ParseHex(t).Some?
    ensures ParseHex(s + t) == Some(ParseHex(s).value * 256 + ParseHex(t).value)
  {
    assert t[..1] == [t[0]];
    var d0, d1 := DigitValue(t[0]).value, DigitValue(t[1]).value;
    assert ParseHex(t) == Some(d0 * 16 + d1);
    var w := s + [t[0]];
    ParseHexSnocChar(s, t[0]);
    assert s + t == w + [t[1]];
    ParseHexSnocChar(w, t[1]);
  }

  /** For channels in 0..255 the colour is six lower-case hex digits, two per
      channel, and reading each pair back gives the channel. */
  lemma ColorRoundTrip(r: Level, g: Level, b: Level)
    requires IsByte(r) && IsByte(g) && IsByte(b)
    ensures HexColor(r, g, b).Ok?
    ensures |HexColor(r, g, b).value| == 6
    ensures forall i :: 0 <= i < 6 ==> IsLowerHexDigit(HexColor(r, g, b).value[i])
    ensures ParseHex(HexColor(r, g, b).value[0..2]) == Some(r.n)
    ensures ParseHex(HexColor(r, g, b).value[2..4]) == Some(g.n)
    ensures ParseHex(HexColor(r, g, b).value[4..6]) == Some(b.n)
  {
    ChannelRoundTrip(r.n);
    ChannelRoundTrip(g.n);
    ChannelRoundTrip(b.n);
    var x, y, z := Hex02(r.n), Hex02(g.n), Hex02(b.n);
    var s := HexColor(r, g, b).value;
    assert s == x + y + z;
    assert s[0..2] == x && s[2..4] == y && s[4..6] == z;
    forall i | 0 <= i < 6 ensures IsLowerHexDigit(s[i]) {
      if i < 2 {
        assert s[i] == x[i];
      } else if i < 4 {
        assert s[i] == y[i - 2];
      } else {
        assert s[i] == z[i - 4];
      }
    }
  }

  /** The whole colour reads back as the 24-bit number `R << 16 | G << 8 | B`. */
  lemma ColorValue(r: Level, g: Level, b: Level)
    requires IsByte(r) && IsByte(g) && IsByte(b)
    ensures HexColor(r, g, b).Ok?
    ensures ParseHex(HexColor(r, g, b).value) == Some(r.n * 65536 + g.n * 256 + b.n)
  {
    ChannelRoundTrip(r.n);
    ChannelRoundTrip(g.n);
    ChannelRoundTrip(b.n);
    var x, y, z := Hex02(r.n), Hex02(g.n), Hex02(b.n);
    ParseHexAppendByte(x, y);
    ParseHexAppendByte(x + y, z);
    assert HexColor(r, g, b).value == x + y + z;
  }

  /** The list comprehension of line 273 over `zip` of three channels, which
      stops at the shortest; any -inf among the zipped entries raises. */
  function ZipColors(f0: seq<Level>, f1: seq<Level>, f2: seq<Level>): (r: Result<seq<string>>)
    ensures r.Err? <==> exists i :: 0 <= i < |f0| && i < |f1| && i < |f2| && (f0[i].NegInf? || f1[i].NegInf? || f2[i].NegInf?)
    ensures r.Err? ==> r.error == OverflowError
    ensures r.Ok? ==> |r.value| == (if |f0| <= |f1| && |f0| <= |f2| then |f0| else if |f1| <= |f2| then |f1| else |f2|)
    ensures r.Ok? ==> forall i :: 0 <= i < |r.value| ==> Ok(r.value[i]) == HexColor(f0[i], f1[i], f2[i])
  {
    var n := if |f0| <= |f1| && |f0| <= |f2| then |f0| else if |f1| <= |f2| then |f1| else |f2|;
    if exists i :: 0 <= i < n && (f0[i].NegInf? || f1[i].NegInf? || f2[i].NegInf?) then Err(OverflowError)
    else Ok(seq(n, i requires 0 <= i < n => HexColor(f0[i], f1[i], f2[i]).value))
  }

  /** Lines 272-275: no channels give no colours; one or two channels raise
      IndexError; otherwise the first three are zipped. */
  function Colors(features: seq<seq<Level>>): (r: Result<seq<string>>)
    ensures features == [] ==> r == Ok([])
    ensures 0 < |features| < 3 ==> r == Err(IndexError)
    ensures |features| >= 3 ==> r == ZipColors(features[0], features[1], features[2])
  {
    if features == [] then Ok([])
    else if |features| < 3 then Err(IndexError)
    else ZipColors(features[0], features[1], features[2])
  }

  // ------------------------------------------------------------ compressHexColor

  /** The bit expression of line 208: `a >> 20 << 8 | a >> 8 & 240 | a >> 4 & 15`. */
  function Compress(a: nat): nat
  {
    BitOr(BitOr(Shl(Shr(a, 20), 8), BitAnd(Shr(a, 8), 240)), BitAnd(Shr(a, 4), 15))
  }

  /** `compressHexColor`: parse the string as hexadecimal (a ValueError for
      anything else), apply the bit expression, print it without padding. */
  function CompressHexColor(a: string): (r: Result<string>)
    ensures ParseHex(a).None? ==> r == Err(ValueError)
    ensures ParseHex(a).Some? ==> r.Ok? && ParseHex(r.value) == Some(Compress(ParseHex(a).value))
    ensures ParseHex(a).Some? ==> var x := ParseHex(a).value;
      ParseHex(r.value) == Some((x / 1048576) * 256 + ((x / 4096) % 16) * 16 + (x / 16) % 16)
    ensures ParseHex(a).Some? ==>
      |r.value| > 0
      && (forall i :: 0 <= i < |r.value| ==> IsLowerHexDigit(r.value[i]))
      && (|r.value| > 1 ==> r.value[0] != '0')
  {
    match ParseHex(a)
    case None => Err(ValueError)
    case Some(x) =>
      ParseHexOfHex(Compress(x));
      CompressNibbles(x);
      HexIsLowerDigits(Compress(x));
      Ok(Hex(Compress(x)))
  }

  lemma DivBy256Then16(a: nat)
    ensures a / 256 / 16 == a / 4096
  {
    var q, r := a / 4096, a % 4096;
    assert a == 256 * (16 * q + r / 256) + r % 256;
    assert a / 256 == 16 * q + r / 256;
  }

  /** `a >> 20 << 8`: bits 20 and up, moved to bit 8. */
  lemma CompressHigh(a: nat)
    ensures Shl(Shr(a, 20), 8) == 16 * (16 * (a / 1048576))
  {
    ShrTwenty(a);
    ShlEight(a / 1048576);
  }

  /** `a >> 8 & 240`: bits 12-15, moved to bits 4-7. */
  lemma CompressMid(a: nat)
    ensures BitAnd(Shr(a, 8), 240) == 16 * ((a / 4096) % 16)
  {
    ShrEight(a);
    AndHighNibble(a / 256);
    DivBy256Then16(a);
  }

  /** `a >> 4 & 15`: bits 4-7, moved to bits 0-3. */
  lemma CompressLow(a: nat)
    ensures BitAnd(Shr(a, 4), 15) == (a / 16) % 16
  {
    ShrFour(a);
    AndLowNibble(a / 16);
  }

  /** The expression keeps bits 20-23, 12-15 and 4-7 of its argument, packed
      into the low twelve bits. */
  lemma CompressNibbles(a: nat)
    ensures Compress(a) == (a / 1048576) * 256 + ((a / 4096) % 16) * 16 + (a / 16) % 16
  {
    var hi, mid, lo := a / 1048576, (a / 4096) % 16, (a / 16) % 16;
    CompressHigh(a);
    CompressMid(a);
    CompressLow(a);
    OrNibbles(hi, mid, lo);
  }

  lemma OrNibbles(hi: nat, mid: nat, lo: nat)
    requires mid < 16 && lo < 16
    ensures BitOr(BitOr(16 * (16 * hi), 16 * mid), lo) == hi * 256 + mid * 16 + lo
  {
    OrShiftNibble(16 * hi, mid);
    OrLowNibble(hi, mid);
    OrLowNibble(16 * hi + mid, lo);
  }

  /** Any 24-bit colour compresses below 0x1000. */
  lemma CompressBelow4096(a: nat)
    requires a < 16777216
    ensures Compress(a) < 4096
  {
    CompressNibbles(a);
  }

  lemma ByteColorNibbles(r: nat, g: nat, b: nat)
    requires r < 256 && g < 256 && b < 256
    ensures (r * 65536 + g * 256 + b) / 1048576 == r / 16
    ensures ((r * 65536 + g * 256 + b) / 4096) % 16 == g / 16
    ensures ((r * 65536 + g * 256 + b) / 16) % 16 == b / 16
  {
    var a := r * 65536 + g * 256 + b;
    assert a == (r / 16) * 1048576 + ((r % 16) * 65536 + g * 256 + b);
    assert a == (r * 16 + g / 16) * 4096 + ((g % 16) * 256 + b);
    assert a / 4096 == r * 16 + g / 16;
    assert a == (r * 4096 + g * 16 + b / 16) * 16 + b % 16;
    assert a / 16 == r * 4096 + g * 16 + b / 16;
  }

  /** Any string that reads as a colour of three 8-bit channels compresses to
      the high nibble of each channel. */
  lemma CompressParsedColor(s: string, r: nat, g: nat, b: nat)
    requires r < 256 && g < 256 && b < 256
    requires ParseHex(s) == Some(r * 65536 + g * 256 + b)
    ensures CompressHexColor(s).Ok?
    ensures ParseHex(CompressHexColor(s).value) == Some((r / 16) * 256 + (g / 16) * 16 + b / 16)
  {
    NibblesOfColor(ParseHex(s).value, r, g, b);
  }

  lemma NibblesOfColor(x: nat, r: nat, g: nat, b: nat)
    requires r < 256 && g < 256 && b < 256 && x == r * 65536 + g * 256 + b
    ensures (x / 1048576) * 256 + ((x / 4096) % 16) * 16 + (x / 16) % 16 == (r / 16) * 256 + (g / 16) * 16 + b / 16
  {
    ByteColorNibbles(r, g, b);
  }

  /** For a colour of three 8-bit channels the compressed value is
      `(R >> 4) * 256 + (G >> 4) * 16 + (B >> 4)`. */
  lemma CompressColor(r: Level, g: Level, b: Level)
    requires IsByte(r) && IsByte(g) && IsByte(b)
    ensures HexColor(r, g, b).Ok?
    ensures CompressHexColor(HexColor(r, g, b).value).Ok?
    ensures ParseHex(CompressHexColor(HexColor(r, g, b).value).value)
         == Some((r.n / 16) * 256 + (g.n / 16) * 16 + b.n / 16)
  {
    ColorValue(r, g, b);
    CompressParsedColor(HexColor(r, g, b).value, r.n, g.n, b.n);
  }
}
