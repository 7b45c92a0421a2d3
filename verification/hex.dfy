/**
 * `rgbaToHex` and its inner `toHex`: each colour channel, already scaled to an
 * integer by `Math.round(c * 255)`, is printed with `Number.prototype.toString(16)`
 * and padded to two digits; the alpha channel is never read.
 */
module Hex {

  /** A channel after `Math.round(c * 255)` for `c` in [0, 1]. */
  type Channel = n: int | 0 <= n <= 255

  /** An RGB or RGBA record; `a` is 1 for an RGB record. */
  datatype Rgba = Rgba(r: Channel, g: Channel, b: Channel, a: real)

  const Digits: string := "0123456789abcdef"

  predicate IsHexDigit(c: char)
  {
    c in Digits
  }

  predicate IsLowerHex(s: string)
  {
    forall i :: 0 <= i < |s| ==> IsHexDigit(s[i])
  }

  function HexDigit(d: nat): (c: char)
    requires d < 16
    ensures IsHexDigit(c)
  {
    Digits[d]
  }

  /** The value of one lower-case hexadecimal digit. */
  function DigitValue(c: char): (d: nat)
    requires IsHexDigit(c)
    ensures d < 16 && HexDigit(d) == c
  {
    if c == '0' then 0 else if c == '1' then 1 else if c == '2' then 2
    else if c == '3' then 3 else if c == '4' then 4 else if c == '5' then 5
    else if c == '6' then 6 else if c == '7' then 7 else if c == '8' then 8
    else if c == '9' then 9 else if c == 'a' then 10 else if c == 'b' then 11
    else if c == 'c' then 12 else if c == 'd' then 13 else if c == 'e' then 14
    else 15
  }

  /** The number a string of lower-case hexadecimal digits denotes. */
  function ParseHex(s: string): nat
    requires IsLowerHex(s)
    decreases |s|
  {
    if s == [] then 0 else ParseHex(s[..|s| - 1]) * 16 + DigitValue(s[|s| - 1])
  }

  /** `n.toString(16)` for a non-negative integer: no leading zeros, "0" for zero. */
  function ToString16(n: nat): (r: string)
    ensures 1 <= |r|
    ensures IsLowerHex(r)
    ensures n < 16 <==> |r| == 1
    ensures |r| > 1 ==> r[0] != '0'
    decreases n
  {
    if n < 16 then [HexDigit(n)] else ToString16(n / 16) + [HexDigit(n % 16)]
  }

  /** `toHex`: the hexadecimal form of one channel, padded to two digits. */
  function ToHex(n: nat): (r: string)
    ensures |r| >= 2 && IsLowerHex(r)
    ensures n < 16 <==> r[0] == '0'
    ensures n < 256 ==> |r| == 2
  {
    var hex := ToString16(n);
    if |hex| == 1 then "0" + hex
    else
      assert n < 256 ==> |ToString16(n / 16)| == 1;
      hex
  }

  /** `rgbaToHex`. */
  function RgbaToHex(c: Rgba): (r: string)
    ensures |r| == 7 && r[0] == '#'
  {
    "#" + ToHex(c.r) + ToHex(c.g) + ToHex(c.b)
  }

  /** Reading a digit back gives the number it was made from. */
  lemma DigitRoundTrip(d: nat)
    requires d < 16
    ensures DigitValue(HexDigit(d)) == d
  {
  }

  /** Parsing the output of ToString16 gives the number back. */
  lemma {:induction false} ParseToString16(n: nat)
    ensures ParseHex(ToString16(n)) == n
    decreases n
  {
    var r := ToString16(n);
    if n < 16 {
      assert r[..0] == [];
      DigitRoundTrip(n);
    } else {
      var q, d := n / 16, n % 16;
      assert n == q * 16 + d;
      ParseToString16(q);
      DigitRoundTrip(d);
      assert r == ToString16(q) + [HexDigit(d)];
      assert r[..|r| - 1] == ToString16(q);
      assert ParseHex(r) == ParseHex(ToString16(q)) * 16 + DigitValue(HexDigit(d));
    }
  }

  /**
   * Every channel becomes exactly two lower-case hexadecimal digits, and
   * reading those digits back gives the channel.
   */
  lemma ToHexChannel(n: Channel)
    ensures |ToHex(n)| == 2 && IsLowerHex(ToHex(n))
    ensures ParseHex(ToHex(n)) == n
  {
    var hex := ToString16(n);
    ParseToString16(n);
    if n >= 16 {
      assert |ToString16(n / 16)| == 1;
    } else {
      var h := "0" + hex;
      assert h[..1] == "0" && h[..1][..0] == [];
      assert ParseHex(h[..1]) == 0;
      assert h[1] == hex[0] && hex[..0] == [];
    }
  }

  /** "#" followed by three two-digit groups: the groups sit at 1, 3 and 5. */
  lemma HexGroups(x: string, y: string, z: string)
    requires |x| == 2 && |y| == 2 && |z| == 2
    requires IsLowerHex(x) && IsLowerHex(y) && IsLowerHex(z)
    ensures var s := "#" + x + y + z;
      && |s| == 7 && s[0] == '#' && IsLowerHex(s[1..])
      && s[1..3] == x && s[3..5] == y && s[5..7] == z
  {
    var s := "#" + x + y + z;
    var digits := x + y + z;
    assert s == "#" + digits;
    assert s[1..] == digits;
    forall i | 0 <= i < 6 ensures IsHexDigit(digits[i]) {
      if i < 2 { assert digits[i] == x[i]; }
      else if i < 4 { assert digits[i] == y[i - 2]; }
      else { assert digits[i] == z[i - 4]; }
    }
  }

  /**
   * `rgbaToHex` gives "#" and six lower-case hexadecimal digits, and each pair
   * of digits reads back as its channel, red, green and blue in that order.
   */
  lemma RgbaToHexFormat(c: Rgba)
    ensures var s := RgbaToHex(c);
      && |s| == 7 && s[0] == '#' && IsLowerHex(s[1..])
      && ParseHex(s[1..3]) == c.r
      && ParseHex(s[3..5]) == c.g
      && ParseHex(s[5..7]) == c.b
  {
    var x, y, z := ToHex(c.r), ToHex(c.g), ToHex(c.b);
    ToHexChannel(c.r);
    ToHexChannel(c.g);
    ToHexChannel(c.b);
    HexGroups(x, y, z);
  }

  /** Two colours with the same hex string have the same red, green and blue. */
  lemma RgbaToHexInjective(c: Rgba, d: Rgba)
    requires RgbaToHex(c) == RgbaToHex(d)
    ensures c.r == d.r && c.g == d.g && c.b == d.b
  {
    RgbaToHexFormat(c);
    RgbaToHexFormat(d);
  }

  /** The alpha channel has no effect on the result. */
  lemma RgbaToHexIgnoresAlpha(c: Rgba, a: real)
    ensures RgbaToHex(c.(a := a)) == RgbaToHex(c)
  {
  }

  /** Black and white. */
  lemma RgbaToHexExtremes(a: real)
    ensures RgbaToHex(Rgba(0, 0, 0, a)) == "#000000"
    ensures RgbaToHex(Rgba(255, 255, 255, a)) == "#ffffff"
  {
    assert ToString16(0) == "0";
    assert ToString16(15) == "f";
    assert ToString16(255) == "ff";
  }
}
