/**
 * The colour helpers of the renderer: `lightenColor` adds an amount to
 * each of the three 8-bit channels of a hexadecimal colour, clamping to
 * [0, 255], and writes the result back as six lower-case hexadecimal
 * digits; `darkenColor` lightens by the negated amount.
 */
module Colors {
  import opened JsText

  /** `x > 255 ? 255 : x < 0 ? 0 : x`. */
  function Clamp(x: int): (c: int)
    ensures 0 <= c <= 255
    ensures 0 <= x <= 255 ==> c == x
    ensures x > 255 ==> c == 255
    ensures x < 0 ==> c == 0
  {
    if x > 255 then 255 else if x < 0 then 0 else x
  }

  /** `num >> 16`: the 32-bit conversion of `num`, shifted arithmetically. */
  function Red(num: int): int
  {
    ToInt32(num) / 0x1_0000
  }

  /** `num >> 8 & 0x00FF`. */
  function Green(num: int): int
  {
    (ToInt32(num) / 0x100) % 0x100
  }

  /** `num & 0x0000FF`. */
  function Blue(num: int): int
  {
    ToInt32(num) % 0x100
  }

  /** `r << 16 | g << 8 | b` for channels in [0, 255], whose bit fields do
      not overlap, so the `|` adds them. */
  function Pack(r: int, g: int, b: int): (n: int)
    requires 0 <= r <= 255 && 0 <= g <= 255 && 0 <= b <= 255
    ensures 0 <= n < 0x100_0000
  {
    r * 0x1_0000 + g * 0x100 + b
  }

  /** Division by 256 is determined by quotient and remainder. */
  lemma DivMod(a: int, q: int, m: int)
    requires 0 <= m < 0x100 && a == q * 0x100 + m
    ensures a / 0x100 == q && a % 0x100 == m
  {
  }

  /** Division by 65536 is determined by quotient and remainder. */
  lemma DivMod2(a: int, q: int, m: int)
    requires 0 <= m < 0x1_0000 && a == q * 0x1_0000 + m
    ensures a / 0x1_0000 == q && a % 0x1_0000 == m
  {
  }

  /** The channels of a packed colour are the ones packed. */
  lemma PackChannels(r: int, g: int, b: int)
    requires 0 <= r <= 255 && 0 <= g <= 255 && 0 <= b <= 255
    ensures Red(Pack(r, g, b)) == r && Green(Pack(r, g, b)) == g && Blue(Pack(r, g, b)) == b
  {
    var n := Pack(r, g, b);
    Int32Small(n);
    assert Red(n) == r by {
      DivMod2(n, r, g * 0x100 + b);
    }
    assert Green(n) == g by {
      DivMod(n, r * 0x100 + g, b);
      DivMod(r * 0x100 + g, r, g);
    }
    assert Blue(n) == b by {
      DivMod(n, r * 0x100 + g, b);
    }
  }

  /** Numbers that fit in 31 bits are their own 32-bit conversion. */
  lemma Int32Small(n: int)
    requires 0 <= n < 0x8000_0000
    ensures ToInt32(n) == n
  {
  }

  /** A 24-bit number is the packing of its own channels. */
  lemma ChannelsPack(n: int)
    requires 0 <= n < 0x100_0000
    ensures 0 <= Red(n) <= 255 && 0 <= Green(n) <= 255 && 0 <= Blue(n) <= 255
    ensures Pack(Red(n), Green(n), Blue(n)) == n
  {
    Int32Small(n);
    var h := n / 0x100;
    DivMod(n, h, n % 0x100);
    DivMod(h, h / 0x100, h % 0x100);
    DivMod2(n, h / 0x100, (h % 0x100) * 0x100 + n % 0x100);
  }

  /** The lower-case digit of `d` in radix 16. */
  function HexDigit(d: int): (c: char)
    requires 0 <= d < 16
    ensures IsDigit(c, 16) && DigitValue(c) == d && c != 'x' && c != 'X'
  {
    if d < 10 then '0' + (d as char) else 'a' + ((d - 10) as char)
  }

  /** `n.toString(16)`: the lower-case hexadecimal digits of `n`, without
      leading zeros. */
  function HexString(n: nat): (s: string)
    ensures 1 <= |s| && forall k :: 0 <= k < |s| ==> IsDigit(s[k], 16) && s[k] != 'x' && s[k] != 'X'
  {
    if n < 16 then [HexDigit(n)]
    else HexString(n / 16) + [HexDigit(n % 16)]
  }

  /** The hexadecimal digits read back the number written. */
  lemma {:induction false} HexValue(n: nat)
    ensures DigitsValue(HexString(n), 16) == n
  {
    if n >= 16 {
      HexValue(n / 16);
      var s := HexString(n);
      assert s[..|s| - 1] == HexString(n / 16);
    }
  }

  /** A number below `16^6` has at most six hexadecimal digits. */
  lemma HexLength(n: nat)
    requires n < 0x100_0000
    ensures |HexString(n)| <= 6
  {
    if n >= 16 {
      HexLengthBelow(n / 16, 5);
    }
  }

  lemma {:induction false} HexLengthBelow(n: nat, k: nat)
    requires n < Power16(k)
    ensures |HexString(n)| <= if k == 0 then 1 else k
  {
    if k < 2 {
      assert Power16(k) <= 16;
    } else if n >= 16 {
      HexLengthBelow(n / 16, k - 1);
    }
  }

  function Power16(k: nat): nat
  {
    if k == 0 then 1 else 16 * Power16(k - 1)
  }

  /** `c` repeated `z` times. */
  function Repeat(z: nat, c: char): (r: string)
    ensures |r| == z && forall k :: 0 <= k < z ==> r[k] == c
  {
    seq(z, _ => c)
  }

  /** `s.padStart(width, fill)`: `fill` repeated in front of `s` up to
      `width` characters. */
  function PadStart(s: string, width: nat, fill: char): (r: string)
    ensures |r| == if |s| < width then width else |s|
    ensures r == Repeat(|r| - |s|, fill) + s
  {
    if |s| >= width then
      assert s == Repeat(0, fill) + s;
      s
    else Repeat(width - |s|, fill) + s
  }

  /** Every character of `s` is a hexadecimal digit. */
  predicate HexDigits(s: string)
  {
    forall k :: 0 <= k < |s| ==> IsDigit(s[k], 16)
  }

  /** Leading zeros do not change the value of a run of digits. */
  lemma {:induction false} ZerosValue(z: nat, s: string)
    requires HexDigits(s)
    ensures HexDigits(Repeat(z, '0') + s)
    ensures DigitsValue(Repeat(z, '0') + s, 16) == DigitsValue(s, 16)
    decreases |s|
  {
    var t := Repeat(z, '0') + s;
    assert HexDigits(t) by {
      forall k | 0 <= k < |t|
        ensures IsDigit(t[k], 16)
      {
        if k >= z {
          assert t[k] == s[k - z];
        }
      }
    }
    if s == [] {
      assert t == Repeat(z, '0');
      ZerosOnly(z);
    } else {
      var s' := s[..|s| - 1];
      ZerosValue(z, s');
      assert t[..|t| - 1] == Repeat(z, '0') + s';
    }
  }

  lemma {:induction false} ZerosOnly(z: nat)
    ensures HexDigits(Repeat(z, '0'))
    ensures DigitsValue(Repeat(z, '0'), 16) == 0
  {
    if z > 0 {
      ZerosOnly(z - 1);
      assert Repeat(z, '0')[..z - 1] == Repeat(z - 1, '0');
    }
  }

  /** The digits of a colour string: what follows the `#`, if there is one. */
  function ColorDigits(color: string): string
  {
    if |color| > 0 && color[0] == '#' then color[1..] else color
  }

  /** `parseInt(col, 16)`, with `NaN` taken as 0, as every bitwise operator
      the source applies to it takes it. */
  function ColorNumber(color: string): int
  {
    match ParseInt(ColorDigits(color), 16)
    case None => 0
    case Some(v) => v
  }

  /** The six-digit lower-case form of a 24-bit colour number. */
  function HexColor(n: int): (s: string)
    requires 0 <= n < 0x100_0000
    ensures |s| == 6
  {
    HexLength(n);
    PadStart(HexString(n), 6, '0')
  }

  /** The number `lightenColor` writes for the number `num` it read: each
      channel moved by `amount` and clamped. */
  function LightenNumber(num: int, amount: int): (n: int)
    ensures 0 <= n < 0x100_0000
  {
    Pack(Clamp(Red(num) + amount), Clamp(Green(num) + amount), Clamp(Blue(num) + amount))
  }

  /** `lightenColor` (app.js:1125-1136). */
  function LightenColor(color: string, amount: int): string
  {
    (if |color| > 0 && color[0] == '#' then "#" else "") + HexColor(LightenNumber(ColorNumber(color), amount))
  }

  /** The `-amount` that `darkenColor` passes on. */
  function Negated(amount: int): int
  {
    -amount
  }

  /** `darkenColor` (app.js:1138-1140). */
  function DarkenColor(color: string, amount: int): string
  {
    LightenColor(color, Negated(amount))
  }

  /** The six-digit form reads back as the number it writes. */
  lemma HexColorValue(n: int)
    requires 0 <= n < 0x100_0000
    ensures ParseInt(HexColor(n), 16) == Some(n)
  {
    var h := HexString(n);
    var s := HexColor(n);
    var z := |s| - |h|;
    assert s == Repeat(z, '0') + h;
    ZerosValue(z, h);
    HexValue(n);
    assert s[1] != 'x' && s[1] != 'X' by {
      if z >= 2 {
        assert s[1] == '0';
      } else {
        assert s[1] == h[1 - z];
      }
    }
    ParseDigits(s, 16);
  }

  /** On numbers: moving every channel by `amount` and back by `-amount`
      restores a 24-bit colour none of whose channels was clamped. */
  lemma LightenNumberInverse(num: int, amount: int)
    requires 0 <= num < 0x100_0000
    requires 0 <= Red(num) + amount <= 255 && 0 <= Green(num) + amount <= 255 && 0 <= Blue(num) + amount <= 255
    ensures LightenNumber(LightenNumber(num, amount), Negated(amount)) == num
  {
    ChannelsPack(num);
    PackChannels(Red(num) + amount, Green(num) + amount, Blue(num) + amount);
  }

}

/**
 * What the colour helpers promise, stated over whole colour strings: the
 * channels they write and the round trip of lightening and darkening.
 */
module ColorLaws {
  import opened JsText
  import opened Colors

  /** What `lightenColor` writes: the `#` kept if there was one, then six
      lower-case hexadecimal digits whose value has each channel of the
      input moved by `amount` and clamped to [0, 255]. */
  lemma LightenChannels(color: string, amount: int)
    ensures var out := LightenColor(color, amount);
            var num := ColorNumber(color);
            (|color| > 0 && color[0] == '#' <==> |out| == 7 && out[0] == '#') &&
            |ColorDigits(out)| == 6 &&
            Red(ColorNumber(out)) == Clamp(Red(num) + amount) &&
            Green(ColorNumber(out)) == Clamp(Green(num) + amount) &&
            Blue(ColorNumber(out)) == Clamp(Blue(num) + amount)
  {
    var num := ColorNumber(color);
    var n := LightenNumber(num, amount);
    LightenReadsBack(color, amount);
    PackChannels(Clamp(Red(num) + amount), Clamp(Green(num) + amount), Clamp(Blue(num) + amount));
  }

  /** The colour `lightenColor` writes reads back as the number it packed. */
  lemma LightenReadsBack(color: string, amount: int)
    ensures var out := LightenColor(color, amount);
            (|color| > 0 && color[0] == '#' <==> |out| == 7 && out[0] == '#') &&
            |ColorDigits(out)| == 6 &&
            ColorNumber(out) == LightenNumber(ColorNumber(color), amount)
  {
    var n := LightenNumber(ColorNumber(color), amount);
    var out := LightenColor(color, amount);
    assert ColorDigits(out) == HexColor(n) by {
      if |color| > 0 && color[0] == '#' {
        assert out == "#" + HexColor(n);
      } else {
        assert out == HexColor(n);
        assert IsDigit(HexColor(n)[0], 16);
      }
    }
    HexColorValue(n);
  }

  /** Darkening undoes lightening when no channel was clamped: the colour
      reads back the same number, and a colour already in the six-digit
      lower-case form comes back unchanged. */
  lemma DarkenUndoesLighten(color: string, amount: int)
    requires 0 <= ColorNumber(color) < 0x100_0000
    requires 0 <= Red(ColorNumber(color)) + amount <= 255
    requires 0 <= Green(ColorNumber(color)) + amount <= 255
    requires 0 <= Blue(ColorNumber(color)) + amount <= 255
    ensures ColorNumber(DarkenColor(LightenColor(color, amount), amount)) == ColorNumber(color)
    ensures color == "#" + HexColor(ColorNumber(color)) ==> DarkenColor(LightenColor(color, amount), amount) == color
  {
    DarkenAfterLighten(color, LightenColor(color, amount), amount);
  }

  /** `DarkenUndoesLighten` for the colour `once` lightened from `color`. */
  lemma DarkenAfterLighten(color: string, once: string, amount: int)
    requires once == LightenColor(color, amount)
    requires 0 <= ColorNumber(color) < 0x100_0000
    requires 0 <= Red(ColorNumber(color)) + amount <= 255
    requires 0 <= Green(ColorNumber(color)) + amount <= 255
    requires 0 <= Blue(ColorNumber(color)) + amount <= 255
    ensures ColorNumber(DarkenColor(once, amount)) == ColorNumber(color)
    ensures color == "#" + HexColor(ColorNumber(color)) ==> DarkenColor(once, amount) == color
  {
    DarkenReadsBack(once, amount);
    LightenReadsBack(color, amount);
    LightenNumberInverse(ColorNumber(color), amount);
  }

  /** What `darkenColor` writes reads back as the darkened number. */
  lemma DarkenReadsBack(color: string, amount: int)
    ensures ColorNumber(DarkenColor(color, amount)) == LightenNumber(ColorNumber(color), Negated(amount))
  {
    LightenReadsBack(color, Negated(amount));
  }
}
