/** Colours of luna2d/graphics/lunacolor.cpp: four floating-point channels
    in 0..1, and the codecs between them and bytes, a packed 32-bit word,
    an `0xRRGGBB` integer and an `"#RRGGBB"` string.

    Channels are modelled as exact reals: the single-precision rounding of
    `value / 255.0f` and `channel * 255` is not modelled. */
module LunaColor {
  import opened CInts

  /** An `unsigned char`. */
  type Byte = b: int | 0 <= b < 256

  /** A `uint32_t`. */
  type Word = w: int | 0 <= w < 0x1_0000_0000

  /** A colour: red, green, blue and alpha, 0.0 to 1.0 in intended use. */
  datatype Color = Color(r: real, g: real, b: real, a: real)

  /** The alpha the three-argument `RgbFloat` calls below receive. The
      default argument is declared in lunacolor.h, which is not part of this
      model; opaque is assumed. */
  const DEFAULT_ALPHA: real := 1.0

  // ---------------------------------------------------------------------
  // Channels and bytes

  /** The default constructor: every channel, alpha included, is zero. */
  function Default(): (c: Color)
    ensures c.r == 0.0 && c.g == 0.0 && c.b == 0.0 && c.a == 0.0
  {
    Color(0.0, 0.0, 0.0, 0.0)
  }

  /** `ByteToFloat`: a byte 0..255 as a channel 0..1. */
  function ByteToFloat(value: Byte): (x: real)
    ensures 0.0 <= x <= 1.0
    ensures x * 255.0 == value as real
  {
    value as real / 255.0
  }

  /** The conversion of `channel * 255` to `unsigned char`: truncation
      toward zero. C++ leaves the conversion undefined when the truncated
      value does not fit in a byte, hence the precondition. */
  predicate InByteRange(x: real) {
    -1.0 < x * 255.0 < 256.0
  }

  function ChannelToByte(x: real): (b: Byte)
    requires InByteRange(x)
    ensures x >= 0.0 ==> b as real <= x * 255.0 < b as real + 1.0
    ensures x < 0.0 ==> b == 0
  {
    if x < 0.0 then 0 else (x * 255.0).Floor
  }

  /** All four channels can be read as bytes. */
  predicate InRange(c: Color) {
    InByteRange(c.r) && InByteRange(c.g) && InByteRange(c.b) && InByteRange(c.a)
  }

  /** `GetR`: the red channel times 255, truncated to a byte. */
  function GetR(c: Color): (v: Byte)
    requires InByteRange(c.r)
    ensures c.r >= 0.0 ==> v as real <= c.r * 255.0 < v as real + 1.0
    ensures c.r < 0.0 ==> v == 0
  {
    ChannelToByte(c.r)
  }

  /** `GetG`: the green channel times 255, truncated to a byte. */
  function GetG(c: Color): (v: Byte)
    requires InByteRange(c.g)
    ensures c.g >= 0.0 ==> v as real <= c.g * 255.0 < v as real + 1.0
    ensures c.g < 0.0 ==> v == 0
  {
    ChannelToByte(c.g)
  }

  /** `GetB`: the blue channel times 255, truncated to a byte. */
  function GetB(c: Color): (v: Byte)
    requires InByteRange(c.b)
    ensures c.b >= 0.0 ==> v as real <= c.b * 255.0 < v as real + 1.0
    ensures c.b < 0.0 ==> v == 0
  {
    ChannelToByte(c.b)
  }

  /** `GetA`: the alpha channel times 255, truncated to a byte. */
  function GetA(c: Color): (v: Byte)
    requires InByteRange(c.a)
    ensures c.a >= 0.0 ==> v as real <= c.a * 255.0 < v as real + 1.0
    ensures c.a < 0.0 ==> v == 0
  {
    ChannelToByte(c.a)
  }

  /** Reading back a byte written with `ByteToFloat` gives the byte. */
  lemma ByteRoundTrip(value: Byte)
    ensures InByteRange(ByteToFloat(value))
    ensures ChannelToByte(ByteToFloat(value)) == value
  {
  }

  // ---------------------------------------------------------------------
  // Constructors from bytes and floats

  /** `Rgb`: channels given as bytes. */
  function Rgb(r: Byte, g: Byte, b: Byte, a: Byte): (c: Color)
    ensures InRange(c)
    ensures c.r == r as real / 255.0 && c.g == g as real / 255.0
    ensures c.b == b as real / 255.0 && c.a == a as real / 255.0
    ensures GetR(c) == r && GetG(c) == g && GetB(c) == b && GetA(c) == a
  {
    ByteRoundTrip(r);
    ByteRoundTrip(g);
    ByteRoundTrip(b);
    ByteRoundTrip(a);
    Color(ByteToFloat(r), ByteToFloat(g), ByteToFloat(b), ByteToFloat(a))
  }

  /** `RgbFloat`: channels given as floats, stored as they are. */
  function RgbFloat(r: real, g: real, b: real, a: real): (c: Color)
    ensures c.r == r && c.g == g && c.b == b && c.a == a
  {
    Color(r, g, b, a)
  }

  /** Two byte quadruples give the same colour only if they are equal. */
  lemma RgbInjective(r: Byte, g: Byte, b: Byte, a: Byte, r': Byte, g': Byte, b': Byte, a': Byte)
    requires Rgb(r, g, b, a) == Rgb(r', g', b', a')
    ensures r == r' && g == g' && b == b' && a == a'
  {
    assert GetR(Rgb(r, g, b, a)) == GetR(Rgb(r', g', b', a'));
    assert GetG(Rgb(r, g, b, a)) == GetG(Rgb(r', g', b', a'));
    assert GetB(Rgb(r, g, b, a)) == GetB(Rgb(r', g', b', a'));
    assert GetA(Rgb(r, g, b, a)) == GetA(Rgb(r', g', b', a'));
  }

  // ---------------------------------------------------------------------
  // The packed 32-bit word 0xRRGGBBAA

  /** The `i`-th byte of a word, counting from the least significant:
      `(w >> 8 * i) & 0xFF`. */
  function WordByte(w: Word, i: nat): (b: Byte)
    requires i < 4
  {
    if i == 0 then w % 256
    else if i == 1 then (w / 0x100) % 256
    else if i == 2 then (w / 0x1_0000) % 256
    else w / 0x100_0000
  }

  /** Four bytes OR-ed together at bit offsets 24, 16, 8 and 0. The bytes
      do not overlap, so the OR is a sum. (`GetR() << 24` overflows a
      signed `int` for red above 127; the conversion to `uint32_t` keeps
      the bit pattern, which is what is modelled.) */
  function Pack(r: Byte, g: Byte, b: Byte, a: Byte): (w: Word)
    ensures WordByte(w, 3) == r && WordByte(w, 2) == g && WordByte(w, 1) == b && WordByte(w, 0) == a
  {
    PackDigits(r, g, b, a);
    r * 0x100_0000 + g * 0x1_0000 + b * 0x100 + a
  }

  /** The base-256 digits of `r g b a`, one division at a time. */
  lemma PackDigits(r: Byte, g: Byte, b: Byte, a: Byte)
    ensures var w := r * 0x100_0000 + g * 0x1_0000 + b * 0x100 + a;
      0 <= w < 0x1_0000_0000 &&
      w % 256 == a && (w / 0x100) % 256 == b && (w / 0x1_0000) % 256 == g && w / 0x100_0000 == r
  {
    var w := r * 0x100_0000 + g * 0x1_0000 + b * 0x100 + a;
    var x1 := r * 0x1_0000 + g * 0x100 + b;
    var x2 := r * 0x100 + g;
    assert w == x1 * 0x100 + a;
    assert w % 256 == a && w / 0x100 == x1;
    assert x1 % 256 == b;
    assert w == x2 * 0x1_0000 + (b * 0x100 + a);
    assert w / 0x1_0000 == x2;
    assert x2 % 256 == g;
    assert w == r * 0x100_0000 + (g * 0x1_0000 + b * 0x100 + a);
    assert w / 0x100_0000 == r;
  }

  /** A word is determined by its four bytes. */
  lemma PackOfBytes(w: Word)
    ensures Pack(WordByte(w, 3), WordByte(w, 2), WordByte(w, 1), WordByte(w, 0)) == w
  {
    var q1 := w / 0x100;
    var q2 := q1 / 0x100;
    assert w == q1 * 0x100 + w % 0x100;
    assert q1 == q2 * 0x100 + q1 % 0x100;
    assert q2 == (q2 / 0x100) * 0x100 + q2 % 0x100;
    assert w / 0x1_0000 == q2;
    assert w / 0x100_0000 == q2 / 0x100;
  }

  /** `GetUint32`: the channels as bytes packed as 0xRRGGBBAA. */
  function GetUint32(c: Color): (w: Word)
    requires InRange(c)
    ensures WordByte(w, 3) == GetR(c) && WordByte(w, 2) == GetG(c)
    ensures WordByte(w, 1) == GetB(c) && WordByte(w, 0) == GetA(c)
  {
    Pack(GetR(c), GetG(c), GetB(c), GetA(c))
  }

  /** `Uint32`: a word 0xRRGGBBAA as a colour. */
  function Uint32(color: Word): (c: Color)
    ensures InRange(c)
    ensures c.r == WordByte(color, 3) as real / 255.0 && c.g == WordByte(color, 2) as real / 255.0
    ensures c.b == WordByte(color, 1) as real / 255.0 && c.a == WordByte(color, 0) as real / 255.0
    ensures GetR(c) == WordByte(color, 3) && GetG(c) == WordByte(color, 2)
    ensures GetB(c) == WordByte(color, 1) && GetA(c) == WordByte(color, 0)
  {
    Rgb(WordByte(color, 3), WordByte(color, 2), WordByte(color, 1), WordByte(color, 0))
  }

  /** Decoding and re-encoding a word gives the word back. */
  lemma Uint32RoundTrip(color: Word)
    ensures GetUint32(Uint32(color)) == color
  {
    PackOfBytes(color);
  }

  /** Encoding a byte-built colour and decoding the word gives the colour
      back. */
  lemma GetUint32RoundTrip(r: Byte, g: Byte, b: Byte, a: Byte)
    ensures Uint32(GetUint32(Rgb(r, g, b, a))) == Rgb(r, g, b, a)
  {
  }

  // ---------------------------------------------------------------------
  // 0xRRGGBB integers

  /** `(hex >> shift) & 0xFF` on a C `int`: the arithmetic shift is a floor
      division, which Dafny's `/` is for a positive divisor, and the mask
      is the non-negative remainder. */
  function HexByte(hex: int, shift: nat): (b: Byte)
    requires shift == 0 || shift == 8 || shift == 16
  {
    if shift == 0 then hex % 256
    else if shift == 8 then (hex / 0x100) % 256
    else (hex / 0x1_0000) % 256
  }

  /** `Hex`: the low three bytes of an `int` are red, green and blue;
      alpha is given. */
  function Hex(hex: int, a: real): (c: Color)
    requires INT32_MIN <= hex <= INT32_MAX
    ensures InByteRange(c.r) && InByteRange(c.g) && InByteRange(c.b) && c.a == a
    ensures var w := TwosComplement(hex);
      GetR(c) == WordByte(w, 2) && GetG(c) == WordByte(w, 1) && GetB(c) == WordByte(w, 0)
  {
    HexByteOfWord(hex, 16);
    HexByteOfWord(hex, 8);
    HexByteOfWord(hex, 0);
    var byteA := HexByte(hex, 16);
    var byteB := HexByte(hex, 8);
    var byteC := HexByte(hex, 0);
    ByteRoundTrip(byteA);
    ByteRoundTrip(byteB);
    ByteRoundTrip(byteC);
    Color(ByteToFloat(byteA), ByteToFloat(byteB), ByteToFloat(byteC), a)
  }

  /** The 32-bit pattern of an `int`, read as an unsigned word. */
  function TwosComplement(hex: int): (w: Word)
    requires INT32_MIN <= hex <= INT32_MAX
    ensures (w - hex) % UINT32_LIMIT == 0
  {
    if hex < 0 then hex + UINT32_LIMIT else hex
  }

  /** A byte of an `int` is the same byte of its two's-complement bit
      pattern. */
  lemma HexByteOfWord(hex: int, shift: nat)
    requires INT32_MIN <= hex <= INT32_MAX
    requires shift == 0 || shift == 8 || shift == 16
    ensures HexByte(hex, shift) == HexByte(TwosComplement(hex), shift)
  {
    if hex < 0 {
      HexByteHighBits(hex, 0x100, shift);
    }
  }

  /** A value 0xRRGGBB gives exactly the colour with those bytes and the
      given alpha. */
  lemma HexOfBytes(r: Byte, g: Byte, b: Byte, a: real)
    ensures Hex(r * 0x1_0000 + g * 0x100 + b, a) == Color(ByteToFloat(r), ByteToFloat(g), ByteToFloat(b), a)
  {
    var h := r * 0x1_0000 + g * 0x100 + b;
    assert HexByte(h, 16) == r by {
      assert h / 0x1_0000 == r;
    }
    assert HexByte(h, 8) == g by {
      assert h / 0x100 == r * 0x100 + g;
    }
    assert HexByte(h, 0) == b;
  }

  /** Only the low 24 bits matter: bits above them (a sign included) are
      ignored, and alpha passes through unchanged. */
  lemma HexIgnoresHighBits(hex: int, k: int, a: real)
    requires INT32_MIN <= hex <= INT32_MAX
    requires INT32_MIN <= hex + k * 0x100_0000 <= INT32_MAX
    ensures Hex(hex + k * 0x100_0000, a) == Hex(hex, a)
    ensures Hex(hex, a).a == a
  {
    HexByteHighBits(hex, k, 16);
    HexByteHighBits(hex, k, 8);
    HexByteHighBits(hex, k, 0);
  }

  lemma HexByteHighBits(hex: int, k: int, shift: nat)
    requires shift == 0 || shift == 8 || shift == 16
    ensures HexByte(hex + k * 0x100_0000, shift) == HexByte(hex, shift)
  {
    var h := hex + k * 0x100_0000;
    if shift == 16 {
      assert h / 0x1_0000 == hex / 0x1_0000 + k * 0x100;
    } else if shift == 8 {
      assert h / 0x100 == hex / 0x100 + k * 0x1_0000;
    } else {
      assert h / 0x100 == hex / 0x100 + k * 0x1_0000;
      assert h % 0x100 == h - 0x100 * (h / 0x100);
    }
  }

  // ---------------------------------------------------------------------
  // "#RRGGBB" strings

  predicate IsHexDigit(ch: char) {
    '0' <= ch <= '9' || 'a' <= ch <= 'f' || 'A' <= ch <= 'F'
  }

  function DigitValue(ch: char): (d: int)
    requires IsHexDigit(ch)
    ensures 0 <= d < 16
  {
    if '0' <= ch <= '9' then ch as int - '0' as int
    else if 'a' <= ch <= 'f' then ch as int - 'a' as int + 10
    else ch as int - 'A' as int + 10
  }

  predicate AllHex(s: string) {
    forall i :: 0 <= i < |s| ==> IsHexDigit(s[i])
  }

  function Pow16(n: nat): (p: nat)
    ensures p >= 1
  {
    if n == 0 then 1 else 16 * Pow16(n - 1)
  }

  /** The value of a run of hex digits, most significant first. */
  function HexValue(s: string): (v: nat)
    requires AllHex(s)
    ensures v < Pow16(|s|)
  {
    if |s| == 0 then 0 else HexValue(s[..|s| - 1]) * 16 + DigitValue(s[|s| - 1])
  }

  lemma {:induction false} HexValueAppend(x: string, y: string)
    requires AllHex(x) && AllHex(y)
    ensures AllHex(x + y)
    ensures HexValue(x + y) == HexValue(x) * Pow16(|y|) + HexValue(y)
    decreases |y|
  {
    assert AllHex(x + y) by {
      forall i | 0 <= i < |x + y|
        ensures IsHexDigit((x + y)[i])
      {
        if i >= |x| {
          assert (x + y)[i] == y[i - |x|];
        }
      }
    }
    if |y| == 0 {
      assert x + y == x;
    } else {
      var y' := y[..|y| - 1];
      var d := DigitValue(y[|y| - 1]);
      assert (x + y)[..|x + y| - 1] == x + y';
      assert (x + y)[|x + y| - 1] == y[|y| - 1];
      assert AllHex(y');
      HexValueAppend(x, y');
      var A, P, B := HexValue(x), Pow16(|y'|), HexValue(y');
      calc {
        HexValue(x + y);
        HexValue(x + y') * 16 + d;
        (A * P + B) * 16 + d;
        { ShiftDigit(A, P, B, d); }
        A * (P * 16) + (B * 16 + d);
        HexValue(x) * Pow16(|y|) + HexValue(y);
      }
    }
  }

  lemma ShiftDigit(a: int, p: int, b: int, d: int)
    ensures (a * p + b) * 16 + d == a * (p * 16) + (b * 16 + d)
  {
  }

  /** The longest prefix made of hex digits. */
  function HexRun(s: string): (r: string)
    ensures AllHex(r) && r <= s
    ensures |r| < |s| ==> !IsHexDigit(s[|r|])
  {
    if |s| > 0 && IsHexDigit(s[0]) then [s[0]] + HexRun(s[1..]) else []
  }

  /** The characters `isspace` accepts in the C locale. */
  predicate IsSpace(ch: char) {
    ch == ' ' || ch == '\t' || ch == '\n' || ch == '\r' || ch == '\U{B}' || ch == '\U{C}'
  }

  /** The position of the first character that is not white space. */
  function SkipSpace(s: string, i: nat): (j: nat)
    requires i <= |s|
    ensures i <= j <= |s|
    ensures forall k :: i <= k < j ==> IsSpace(s[k])
    ensures j < |s| ==> !IsSpace(s[j])
    decreases |s| - i
  {
    if i < |s| && IsSpace(s[i]) then SkipSpace(s, i + 1) else i
  }

  /** `strtol(s, nullptr, 16)`: leading white space, an optional sign, an
      optional `0x`/`0X` when a hex digit follows it, then the longest run
      of hex digits; no digits read as 0. The model is applied to at most
      six characters, whose value fits every `long`, so the clamping of
      out-of-range values is never reached. */
  function Strtol16(s: string): (v: int)
    requires |s| <= 6
    ensures -0x100_0000 < v < 0x100_0000
  {
    var digits := HexRun(s[DigitsStart(s)..]);
    assert Pow16(|digits|) <= 0x100_0000 by {
      Pow16Mono(|digits|, 6);
    }
    var v: int := HexValue(digits);
    if Negative(s) then -v else v
  }

  /** `strtol` sees a minus sign after the leading white space. */
  predicate Negative(s: string) {
    var i := SkipSpace(s, 0);
    i < |s| && s[i] == '-'
  }

  /** Where the hex digits `strtol` reads begin: after the white space, the
      sign and a `0x`/`0X` that a hex digit follows. */
  function DigitsStart(s: string): (k: nat)
    ensures k <= |s|
  {
    var i := SkipSpace(s, 0);
    var j := if i < |s| && (s[i] == '-' || s[i] == '+') then i + 1 else i;
    if j + 2 < |s| && s[j] == '0' && (s[j + 1] == 'x' || s[j + 1] == 'X') && IsHexDigit(s[j + 2])
    then j + 2 else j
  }

  lemma {:induction false} Pow16Mono(m: nat, n: nat)
    requires m <= n
    ensures Pow16(m) <= Pow16(n)
    decreases n
  {
    if m < n {
      Pow16Mono(m, n - 1);
    }
  }

  /** Six hex digits read as their value. */
  lemma {:induction false} Strtol16Digits(s: string)
    requires |s| <= 6 && AllHex(s)
    ensures Strtol16(s) == HexValue(s)
  {
    assert HexRun(s) == s by {
      HexRunAll(s);
    }
    assert Strtol16(s) == HexValue(HexRun(s)) by {
      if |s| > 0 {
        assert IsHexDigit(s[0]);
      }
      if |s| > 1 {
        assert IsHexDigit(s[1]);
      }
      StrtolPlain(s);
    }
  }

  /** Without leading white space, sign or `0x`, `strtol` reads the
      leading run of hex digits. */
  lemma {:induction false} StrtolPlain(s: string)
    requires |s| <= 6
    requires |s| > 0 ==> !IsSpace(s[0]) && s[0] != '-' && s[0] != '+'
    requires |s| > 1 && s[0] == '0' ==> s[1] != 'x' && s[1] != 'X'
    ensures Strtol16(s) == HexValue(HexRun(s))
  {
    PlainStart(s);
    assert s[DigitsStart(s)..] == s;
  }

  lemma {:induction false} PlainStart(s: string)
    requires |s| > 0 ==> !IsSpace(s[0]) && s[0] != '-' && s[0] != '+'
    requires |s| > 1 && s[0] == '0' ==> s[1] != 'x' && s[1] != 'X'
    ensures DigitsStart(s) == 0 && !Negative(s)
  {
    assert SkipSpace(s, 0) == 0;
  }

  lemma {:induction false} HexRunAll(s: string)
    requires AllHex(s)
    ensures HexRun(s) == s
    decreases |s|
  {
    if |s| > 0 {
      HexRunAll(s[1..]);
      assert s == [s[0]] + s[1..];
    }
  }

  /** The number of bytes a character takes in UTF-8. */
  function Utf8Width(ch: char): (n: nat)
    ensures 1 <= n <= 4
    ensures n == 1 <==> ch < '\U{80}'
  {
    if ch < '\U{80}' then 1 else if ch < '\U{800}' then 2 else if ch < '\U{10000}' then 3 else 4
  }

  /** `std::string::size()` of a string's UTF-8 encoding: at least one byte
      per character. */
  function Utf8Length(s: string): (n: nat)
    ensures |s| <= n
  {
    if |s| == 0 then 0 else Utf8Width(s[0]) + Utf8Length(s[1..])
  }

  /** A string takes one byte per character exactly when it is ASCII. */
  lemma {:induction false} Utf8LengthAscii(s: string)
    ensures Utf8Length(s) == |s| <==> forall i :: 0 <= i < |s| ==> s[i] < '\U{80}'
    decreases |s|
  {
    if |s| > 0 {
      Utf8LengthAscii(s[1..]);
      assert forall i :: 1 <= i < |s| ==> s[i] == s[1..][i - 1];
    }
  }

  /** Hex digits are ASCII, one byte each. */
  lemma HexUtf8Length(s: string)
    requires AllHex(s)
    ensures Utf8Length(s) == |s|
  {
    Utf8LengthAscii(s);
    assert forall i :: 0 <= i < |s| ==> IsHexDigit(s[i]);
  }

  /** `HexString`: "#RRGGBB" or "RRGGBB". The size test counts the bytes of
      the string's UTF-8 encoding, and any size but 6 or 7, or a seventh
      byte other than a leading '#', gives the default colour. The rest is
      read by `strtol` in base 16; as a non-ASCII character stops `strtol`
      exactly as its first byte does, reading characters gives the same
      value as reading bytes. */
  function HexString(hexStr: string, a: real): (c: Color)
    ensures Utf8Length(hexStr) != 6 && Utf8Length(hexStr) != 7 ==> c == Default()
    ensures Utf8Length(hexStr) == 7 && hexStr[0] != '#' ==> c == Default()
    ensures Utf8Length(hexStr) == 6 ==> c == Hex(Strtol16(hexStr), a)
    ensures Utf8Length(hexStr) == 7 && hexStr[0] == '#' ==> |hexStr[1..]| <= 6 && c == Hex(Strtol16(hexStr[1..]), a)
  {
    var size := Utf8Length(hexStr);
    if size != 6 && size != 7 then Default()
    else if size == 7 && hexStr[0] != '#' then Default()
    else
      var first := if size == 7 then 1 else 0;
      Hex(Strtol16(hexStr[first..]), a)
  }

  /** "#" and six hex digits read as the colour of their value. */
  lemma HexStringDigits(hexStr: string, a: real)
    requires |hexStr| == 7 && hexStr[0] == '#' && AllHex(hexStr[1..])
    ensures HexString(hexStr, a) == Hex(HexValue(hexStr[1..]), a)
  {
    HexUtf8Length(hexStr[1..]);
    assert Utf8Length(hexStr) == 7;
    Strtol16Digits(hexStr[1..]);
  }

  /** An upper-case hex digit. */
  function HexDigit(n: int): (ch: char)
    requires 0 <= n < 16
    ensures IsHexDigit(ch) && DigitValue(ch) == n
  {
    if n < 10 then ('0' as int + n) as char else ('A' as int + n - 10) as char
  }

  /** Two hex digits of a byte. */
  function ByteHex(b: Byte): (s: string)
    ensures |s| == 2 && AllHex(s) && HexValue(s) == b
  {
    var s := [HexDigit(b / 16), HexDigit(b % 16)];
    assert s[..1] == [HexDigit(b / 16)];
    s
  }

  /** A colour's red, green and blue bytes written as "#RRGGBB". */
  function FormatHex(r: Byte, g: Byte, b: Byte): (s: string)
    ensures |s| == 7 && s[0] == '#'
    ensures AllHex(s[1..])
  {
    var d := ByteHex(r) + ByteHex(g) + ByteHex(b);
    assert AllHex(d) by {
      HexValueAppend(ByteHex(r), ByteHex(g));
      HexValueAppend(ByteHex(r) + ByteHex(g), ByteHex(b));
    }
    assert ("#" + d)[1..] == d;
    "#" + d
  }

  /** The six digits of "#RRGGBB" read as 0xRRGGBB. */
  lemma FormatHexValue(r: Byte, g: Byte, b: Byte)
    ensures AllHex(FormatHex(r, g, b)[1..])
    ensures HexValue(FormatHex(r, g, b)[1..]) == r * 0x1_0000 + g * 0x100 + b
  {
    var R, G, B := ByteHex(r), ByteHex(g), ByteHex(b);
    assert FormatHex(r, g, b)[1..] == R + G + B;
    assert Pow16(2) == 256;
    HexValueAppend(R, G);
    assert HexValue(R + G) == r * 256 + g;
    HexValueAppend(R + G, B);
    assert HexValue(R + G + B) == (r * 256 + g) * 256 + b;
  }

  /** Parsing "#RRGGBB" written from three bytes gives those bytes and the
      given alpha. */
  lemma HexStringRoundTrip(r: Byte, g: Byte, b: Byte, a: real)
    ensures HexString(FormatHex(r, g, b), a) == Color(ByteToFloat(r), ByteToFloat(g), ByteToFloat(b), a)
  {
    FormatHexValue(r, g, b);
    HexStringOfBytes(FormatHex(r, g, b), r, g, b, a);
  }

  /** Any "#" and six hex digits whose value is 0xRRGGBB read as the colour
      of those bytes. */
  lemma HexStringOfBytes(s: string, r: Byte, g: Byte, b: Byte, a: real)
    requires |s| == 7 && s[0] == '#' && AllHex(s[1..])
    requires HexValue(s[1..]) == r * 0x1_0000 + g * 0x100 + b
    ensures HexString(s, a) == Color(ByteToFloat(r), ByteToFloat(g), ByteToFloat(b), a)
  {
    HexStringDigits(s, a);
    HexOfBytes(r, g, b, a);
  }

  /** The leading '#' is optional: six bytes give the same colour with or
      without it. */
  lemma HexStringHashOptional(digits: string, a: real)
    requires Utf8Length(digits) == 6
    ensures HexString("#" + digits, a) == HexString(digits, a)
  {
    assert ("#" + digits)[1..] == digits;
  }

  /** The size test counts bytes: three two-byte characters pass it, and
      `strtol` then reads no digit, so the colour is black with the given
      alpha rather than the default colour. */
  lemma HexStringCountsBytes(a: real)
    ensures Utf8Length("\U{E9}\U{E9}\U{E9}") == 6
    ensures HexString("\U{E9}\U{E9}\U{E9}", a) == Hex(0, a)
  {
    var s := "\U{E9}\U{E9}\U{E9}";
    assert Utf8Length(s[1..][1..]) == 2 by {
      assert s[1..][1..] == "\U{E9}";
    }
    assert Utf8Length(s) == 6;
    StrtolNoDigit(s);
  }

  /** A string that starts with a character `strtol` cannot read as white
      space, sign or digit reads as 0. */
  lemma {:induction false} StrtolNoDigit(s: string)
    requires 0 < |s| <= 6
    requires !IsSpace(s[0]) && s[0] != '-' && s[0] != '+' && !IsHexDigit(s[0])
    ensures Strtol16(s) == 0
  {
    StrtolPlain(s);
    assert HexRun(s) == [];
  }

  // ---------------------------------------------------------------------
  // Frequently used colours

  const WHITE: Color := RgbFloat(1.0, 1.0, 1.0, DEFAULT_ALPHA)
  const BLACK: Color := RgbFloat(0.0, 0.0, 0.0, DEFAULT_ALPHA)
  const GRAY: Color := RgbFloat(0.5, 0.5, 0.5, DEFAULT_ALPHA)
  const RED: Color := RgbFloat(1.0, 0.0, 0.0, DEFAULT_ALPHA)
  const GREEN: Color := RgbFloat(0.0, 1.0, 0.0, DEFAULT_ALPHA)
  const BLUE: Color := RgbFloat(0.0, 0.0, 1.0, DEFAULT_ALPHA)
  const YELLOW: Color := RgbFloat(1.0, 1.0, 0.0, DEFAULT_ALPHA)
  const CYAN: Color := RgbFloat(0.0, 1.0, 1.0, DEFAULT_ALPHA)
  const PURPLE: Color := RgbFloat(1.0, 0.0, 1.0, DEFAULT_ALPHA)
  const TRANSPARENT: Color := RgbFloat(1.0, 1.0, 1.0, 0.0)

  /** The byte a channel of 0, 0.5 or 1 reads as: half a channel is 127
      (127.5 truncated). */
  lemma ChannelBytes()
    ensures InByteRange(0.0) && ChannelToByte(0.0) == 0
    ensures InByteRange(0.5) && ChannelToByte(0.5) == 127
    ensures InByteRange(1.0) && ChannelToByte(1.0) == 255
  {
    assert (0.5 * 255.0).Floor == 127;
  }

  /** The named colours as channel bytes: full channels read as 255,
      gray's half channel as 127, and transparent has alpha 0. */
  lemma NamedColorBytes()
    ensures InRange(WHITE) && GetR(WHITE) == 0xFF && GetG(WHITE) == 0xFF && GetB(WHITE) == 0xFF && GetA(WHITE) == 0xFF
    ensures InRange(BLACK) && GetR(BLACK) == 0x00 && GetG(BLACK) == 0x00 && GetB(BLACK) == 0x00 && GetA(BLACK) == 0xFF
    ensures InRange(GRAY) && GetR(GRAY) == 0x7F && GetG(GRAY) == 0x7F && GetB(GRAY) == 0x7F && GetA(GRAY) == 0xFF
    ensures InRange(RED) && GetR(RED) == 0xFF && GetG(RED) == 0x00 && GetB(RED) == 0x00 && GetA(RED) == 0xFF
    ensures InRange(GREEN) && GetR(GREEN) == 0x00 && GetG(GREEN) == 0xFF && GetB(GREEN) == 0x00 && GetA(GREEN) == 0xFF
    ensures InRange(BLUE) && GetR(BLUE) == 0x00 && GetG(BLUE) == 0x00 && GetB(BLUE) == 0xFF && GetA(BLUE) == 0xFF
    ensures InRange(YELLOW) && GetR(YELLOW) == 0xFF && GetG(YELLOW) == 0xFF && GetB(YELLOW) == 0x00 && GetA(YELLOW) == 0xFF
    ensures InRange(CYAN) && GetR(CYAN) == 0x00 && GetG(CYAN) == 0xFF && GetB(CYAN) == 0xFF && GetA(CYAN) == 0xFF
    ensures InRange(PURPLE) && GetR(PURPLE) == 0xFF && GetG(PURPLE) == 0x00 && GetB(PURPLE) == 0xFF && GetA(PURPLE) == 0xFF
    ensures InRange(TRANSPARENT) && GetR(TRANSPARENT) == 0xFF && GetG(TRANSPARENT) == 0xFF && GetB(TRANSPARENT) == 0xFF && GetA(TRANSPARENT) == 0x00
  {
    ChannelBytes();
  }

  /** The default colour is fully transparent black. */
  lemma DefaultWord()
    ensures InRange(Default()) && GetUint32(Default()) == 0
  {
  }
}
