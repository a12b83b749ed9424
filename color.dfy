// The hex colour codec of the colour picker (components/ColorPicker.tsx):
// the six-digit form of the CSS hex colour notation, with an optional `#`.
module Color {
  import opened Wrappers
  import opened Strings

  datatype Rgb = Rgb(r: int, g: int, b: int)

  predicate InByte(v: int) { 0 <= v <= 255 }

  predicate IsByteRgb(c: Rgb) { InByte(c.r) && InByte(c.g) && InByte(c.b) }

  // --------------------------------------------------------------- digits

  /** `[a-f\d]` under the `i` flag. */
  predicate IsHexDigit(c: char) {
    '0' <= c <= '9' || 'a' <= c <= 'f' || 'A' <= c <= 'F'
  }

  predicate AllHex(s: string) { forall i | 0 <= i < |s| :: IsHexDigit(s[i]) }

  function HexValue(c: char): (v: nat)
    requires IsHexDigit(c)
    ensures v < 16
  {
    if '0' <= c <= '9' then (c as int - '0' as int) as nat
    else if 'a' <= c <= 'f' then (c as int - 'a' as int + 10) as nat
    else (c as int - 'A' as int + 10) as nat
  }

  /** The digit `Number.prototype.toString(16)` writes: lower case. */
  function HexDigit(d: nat): (c: char)
    requires d < 16
    ensures IsHexDigit(c) && HexValue(c) == d
  {
    "0123456789abcdef"[d]
  }

  /** `n.toString(16)`: the hexadecimal digits without leading zeros. */
  function ToHex(n: nat): (s: string)
    ensures |s| >= 1 && AllHex(s)
  {
    if n < 16 then [HexDigit(n)] else ToHex(n / 16) + [HexDigit(n % 16)]
  }

  /** `parseInt(s, 16)` on a run of hex digits. */
  function ParseHex(s: string): nat
    requires AllHex(s)
  {
    if s == [] then 0 else 16 * ParseHex(s[..|s| - 1]) + HexValue(s[|s| - 1])
  }

  /** Writing one more digit at the end. */
  lemma ToHexStep(n: nat, d: nat)
    requires n >= 1 && d < 16
    ensures ToHex(n * 16 + d) == ToHex(n) + [HexDigit(d)]
  {
    assert (n * 16 + d) / 16 == n && (n * 16 + d) % 16 == d;
  }

  /** The two lower-case digits of a byte. */
  function ByteHex(v: int): (s: string)
    requires InByte(v)
    ensures |s| == 2 && AllHex(s) && ParseHex(s) == v
  {
    var s := [HexDigit(v / 16), HexDigit(v % 16)];
    ParsePair(s);
    s
  }

  /** The value of two hex digits. */
  lemma ParsePair(s: string)
    requires |s| == 2 && AllHex(s)
    ensures ParseHex(s) == 16 * HexValue(s[0]) + HexValue(s[1])
  {
    var a := s[..1];
    assert a[..0] == [] && a[0] == s[0];
    assert ParseHex(a) == HexValue(s[0]);
  }

  // -------------------------------------------------------------- rgbToHex

  /** `(1 << 24) + (r << 16) + (g << 8) + b`; the shifts do not wrap for
    * byte components. */
  function Packed(c: Rgb): nat
    requires IsByteRgb(c)
  {
    16777216 + c.r * 65536 + c.g * 256 + c.b
  }

  lemma SnocTwo(a: string, x: char, y: char)
    ensures (a + [x]) + [y] == a + [x, y]
  {
  }

  /** Appending a byte appends its two digits. */
  lemma ToHexByte(n: nat, v: int)
    requires n >= 1 && InByte(v)
    ensures ToHex(n * 256 + v) == ToHex(n) + ByteHex(v)
  {
    var q, r := v / 16, v % 16;
    var m := n * 16 + q;
    assert n * 256 + v == m * 16 + r;
    ToHexStep(n, q);
    ToHexStep(m, r);
    assert ByteHex(v) == [HexDigit(q), HexDigit(r)];
    SnocTwo(ToHex(n), HexDigit(q), HexDigit(r));
  }

  /** The packed value is written `1` followed by the digits of the three
    * bytes. */
  lemma PackedDigits(c: Rgb)
    requires IsByteRgb(c)
    ensures ToHex(Packed(c)) == ['1'] + ByteHex(c.r) + ByteHex(c.g) + ByteHex(c.b)
  {
    var n1 := 256 + c.r;
    var n2 := n1 * 256 + c.g;
    assert Packed(c) == n2 * 256 + c.b;
    assert ToHex(1) == ['1'];
    ToHexByte(1, c.r);
    ToHexByte(n1, c.g);
    ToHexByte(n2, c.b);
  }

  /** `rgbToHex`: `#` and the packed value's digits after the leading `1`,
    * upper-cased. */
  function RgbToHex(c: Rgb): string
    requires IsByteRgb(c)
  {
    "#" + ToUpper(ToHex(Packed(c))[1..])
  }

  /** The result is `#` and six upper-case hex digits: the bytes in order. */
  lemma RgbToHexForm(c: Rgb)
    requires IsByteRgb(c)
    ensures var h := RgbToHex(c);
      |h| == 7 && h[0] == '#' && AllHex(h[1..]) && ToUpper(h) == h &&
      h[1..] == ToUpper(ByteHex(c.r) + ByteHex(c.g) + ByteHex(c.b))
  {
    PackedDigits(c);
    var x := ToHex(Packed(c))[1..];
    assert x == ByteHex(c.r) + ByteHex(c.g) + ByteHex(c.b);
    UpperHex(x);
    HashUpper(ToUpper(x));
  }

  /** `#` in front of an upper-cased string: upper-casing changes nothing. */
  lemma HashUpper(u: string)
    requires ToUpper(u) == u
    ensures ToUpper("#" + u) == "#" + u && ("#" + u)[1..] == u
  {
    ToUpperAppend("#", u);
  }

  /** Upper-casing keeps hex digits and their values. */
  lemma UpperHex(s: string)
    requires AllHex(s)
    ensures AllHex(ToUpper(s))
    ensures ParseHex(ToUpper(s)) == ParseHex(s)
    ensures ToUpper(ToUpper(s)) == ToUpper(s)
  {
    ToUpperIdempotent(s);
    if s != [] {
      UpperHex(s[..|s| - 1]);
      assert ToUpper(s)[..|s| - 1] == ToUpper(s[..|s| - 1]);
    }
  }

  // -------------------------------------------------------------- hexToRgb

  /** `/^#?([a-f\d]{2})([a-f\d]{2})([a-f\d]{2})$/i.exec(hex)`: the six digits,
    * when `hex` is six hex digits with at most a `#` in front. */
  function HexDigits(hex: string): (r: Option<string>)
    ensures r.Some? ==> |r.value| == 6 && AllHex(r.value)
  {
    if |hex| == 6 && AllHex(hex) then Some(hex)
    else if |hex| == 7 && hex[0] == '#' && AllHex(hex[1..]) then Some(hex[1..])
    else None
  }

  /** `hexToRgb`: the three pairs of digits parsed, or null. */
  function HexToRgb(hex: string): (c: Option<Rgb>)
    ensures c.Some? ==> IsByteRgb(c.value)
  {
    match HexDigits(hex)
    case None => None
    case Some(d) =>
      ByteRange(d[0..2]);
      ByteRange(d[2..4]);
      ByteRange(d[4..6]);
      Some(Rgb(ParseHex(d[0..2]), ParseHex(d[2..4]), ParseHex(d[4..6])))
  }

  lemma ByteRange(s: string)
    requires |s| == 2 && AllHex(s)
    ensures ParseHex(s) <= 255
  {
    ParsePair(s);
  }

  /** Exactly six hex digits, in either case and with an optional leading
    * `#`, are accepted. */
  lemma HexToRgbAccepts(hex: string)
    ensures HexToRgb(hex).Some? <==>
      ((|hex| == 6 && AllHex(hex)) || (|hex| == 7 && hex[0] == '#' && AllHex(hex[1..])))
  {
  }

  /** Reading a written colour gives it back. */
  lemma HexRoundTrip(c: Rgb)
    requires IsByteRgb(c)
    ensures HexToRgb(RgbToHex(c)) == Some(c)
  {
    RgbToHexForm(c);
    var h := RgbToHex(c);
    var d := h[1..];
    assert HexDigits(h) == Some(d);
    var lo := ByteHex(c.r) + ByteHex(c.g) + ByteHex(c.b);
    assert d == ToUpper(lo);
    assert d[0..2] == ToUpper(ByteHex(c.r)) by { ToUpperAppend(ByteHex(c.r), ByteHex(c.g) + ByteHex(c.b)); }
    assert d[2..4] == ToUpper(ByteHex(c.g)) by {
      ToUpperAppend(ByteHex(c.r), ByteHex(c.g) + ByteHex(c.b));
      ToUpperAppend(ByteHex(c.g), ByteHex(c.b));
    }
    assert d[4..6] == ToUpper(ByteHex(c.b)) by {
      ToUpperAppend(ByteHex(c.r) + ByteHex(c.g), ByteHex(c.b));
    }
    UpperHex(ByteHex(c.r));
    UpperHex(ByteHex(c.g));
    UpperHex(ByteHex(c.b));
  }

  /** Writing a read colour gives `#` and the input's six digits in upper
    * case. */
  lemma HexNormalises(hex: string)
    requires HexToRgb(hex).Some?
    ensures RgbToHex(HexToRgb(hex).value) == "#" + ToUpper(HexDigits(hex).value)
  {
    var d := HexDigits(hex).value;
    var c := HexToRgb(hex).value;
    RgbToHexForm(c);
    PairHex(d[0..2]);
    PairHex(d[2..4]);
    PairHex(d[4..6]);
    assert d == d[0..2] + d[2..4] + d[4..6];
    ToUpperAppend(d[0..2], d[2..4]);
    ToUpperAppend(d[0..2] + d[2..4], d[4..6]);
    ToUpperAppend(ByteHex(c.r), ByteHex(c.g));
    ToUpperAppend(ByteHex(c.r) + ByteHex(c.g), ByteHex(c.b));
    var h := RgbToHex(c);
    assert h == "#" + h[1..];
  }

  /** Two hex digits and the lower-case digits of their value agree up to
    * case. */
  lemma PairHex(s: string)
    requires |s| == 2 && AllHex(s)
    ensures ParseHex(s) <= 255 && ToUpper(ByteHex(ParseHex(s))) == ToUpper(s)
  {
    ByteRange(s);
    var v := ParseHex(s);
    ParsePair(s);
    SameDigit(HexDigit(v / 16), s[0]);
    SameDigit(HexDigit(v % 16), s[1]);
  }

  /** Two hex digits of the same value are the same digit up to case. */
  lemma SameDigit(a: char, b: char)
    requires IsHexDigit(a) && IsHexDigit(b) && HexValue(a) == HexValue(b)
    ensures UpperChar(a) == UpperChar(b)
  {
  }

  // ---------------------------------------------------- handleHexInputChange

  /** `handleHexInputChange`: the typed value with a `#` put in front when
    * it has none, upper-cased. */
  function HexInput(v: string): (r: string)
    ensures |r| >= 1 && r[0] == '#'
    ensures ToUpper(r) == r
  {
    var withHash := if |v| >= 1 && v[0] == '#' then v else "#" + v;
    ToUpperIdempotent(withHash);
    ToUpper(withHash)
  }

  /** Normalising what was typed keeps the colour it names: six hex digits,
    * with or without `#`, read the same before and after. */
  lemma HexInputKeepsColour(v: string)
    requires HexToRgb(v).Some?
    ensures HexToRgb(HexInput(v)) == HexToRgb(v)
  {
    var d := HexDigits(v).value;
    assert |v| == 7 ==> v == "#" + d;
    ToUpperAppend("#", d);
    assert HexInput(v) == "#" + ToUpper(d);
    UpperDigits(d);
  }

  /** Upper-casing six hex digits keeps the three bytes they spell. */
  lemma UpperDigits(d: string)
    requires |d| == 6 && AllHex(d)
    ensures var u := ToUpper(d);
      HexDigits("#" + u) == Some(u) &&
      ParseHex(u[0..2]) == ParseHex(d[0..2]) && ParseHex(u[2..4]) == ParseHex(d[2..4]) &&
      ParseHex(u[4..6]) == ParseHex(d[4..6])
  {
    var u := ToUpper(d);
    UpperHex(d);
    assert ("#" + u)[1..] == u;
    assert u[0..2] == ToUpper(d[0..2]) && u[2..4] == ToUpper(d[2..4]) && u[4..6] == ToUpper(d[4..6]);
    UpperHex(d[0..2]);
    UpperHex(d[2..4]);
    UpperHex(d[4..6]);
  }
}
