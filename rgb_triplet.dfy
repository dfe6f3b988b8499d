/**
 * `parseRgbTriplet` of articles/article-page.js (copied unchanged in
 * listening-notes-7q4m/article-page.js): a theme colour written as `#rgb`,
 * `#rrggbb`, `rgb(...)` or `rgba(...)` becomes its red, green and blue
 * components; anything else is `null`.
 */
module RgbTriplet {
  import opened Options
  import opened JsNumbers
  import opened JsStrings

  datatype Triplet = Triplet(red: real, green: real, blue: real)

  /** `[0-9a-f]` under the `i` flag. */
  predicate IsHexDigit(c: char)
  {
    '0' <= c <= '9' || 'a' <= c <= 'f' || 'A' <= c <= 'F'
  }

  predicate AllHex(s: string)
  {
    forall i :: 0 <= i < |s| ==> IsHexDigit(s[i])
  }

  function HexDigit(c: char): (d: nat)
    requires IsHexDigit(c)
    ensures d < 16
  {
    if '0' <= c <= '9' then c as int - '0' as int
    else if 'a' <= c <= 'f' then c as int - 'a' as int + 10
    else c as int - 'A' as int + 10
  }

  /** `Number.parseInt(hex, 16)` on hex digits only. */
  function HexValue(s: string): nat
    requires AllHex(s)
    decreases |s|
  {
    if s == [] then 0 else HexValue(s[..|s| - 1]) * 16 + HexDigit(s[|s| - 1])
  }

  /** `/^#([0-9a-f]{3}|[0-9a-f]{6})$/i`: the digits after `#`, if `value` matches. */
  function HexMatch(value: string): (m: Option<string>)
    ensures m.Some? ==> (|m.value| == 3 || |m.value| == 6) && AllHex(m.value) && value == "#" + m.value
    ensures m.None? ==> !(|value| in {4, 7} && value[0] == '#' && AllHex(value[1..]))
  {
    if |value| in {4, 7} && value[0] == '#' && AllHex(value[1..]) then Some(value[1..]) else None
  }

  /** The 3-digit form doubled digit by digit. */
  function Expand(raw: string): (hex: string)
    requires AllHex(raw)
    ensures AllHex(hex) && |hex| == (if |raw| == 3 then 6 else |raw|)
  {
    if |raw| == 3 then [raw[0], raw[0], raw[1], raw[1], raw[2], raw[2]] else raw
  }

  /** `(v >> 16) & 255`, `(v >> 8) & 255`, `v & 255` on a non-negative value. */
  function Channels(v: nat): (t: Triplet)
    ensures 0.0 <= t.red <= 255.0 && 0.0 <= t.green <= 255.0 && 0.0 <= t.blue <= 255.0
  {
    Triplet(((v / 65536) % 256) as real, ((v / 256) % 256) as real, (v % 256) as real)
  }

  /** `/^rgba?\(([^)]+)\)$/i`: the text between the brackets, if `value` matches. */
  function RgbMatch(value: string): (m: Option<string>)
    ensures m.Some? ==> m.value != [] && ')' !in m.value
  {
    var prefix :=
      if |value| >= 4 && value[0] in "rR" && value[1] in "gG" && value[2] in "bB" then
        if value[3] == '(' then 4
        else if |value| >= 5 && value[3] in "aA" && value[4] == '(' then 5
        else 0
      else 0;
    if prefix > 0 && |value| >= prefix + 2 && value[|value| - 1] == ')' && ')' !in value[prefix..|value| - 1]
    then Some(value[prefix..|value| - 1])
    else None
  }

  /** `parts.map((part) => parseFloat(part.trim()))`. */
  function Parsed(parts: seq<string>, parseFloat: string -> JsNumber): (ns: seq<JsNumber>)
    ensures |ns| == |parts|
    ensures forall i :: 0 <= i < |parts| ==> ns[i] == parseFloat(Trim(parts[i]))
  {
    seq(|parts|, i requires 0 <= i < |parts| => parseFloat(Trim(parts[i])))
  }

  /** `.filter(Number.isFinite)`, keeping the values of the finite numbers in order. */
  function Finites(ns: seq<JsNumber>): (r: seq<real>)
    ensures |r| <= |ns|
  {
    if ns == [] then []
    else (if ns[0].Finite? then [ns[0].value] else []) + Finites(ns[1..])
  }

  /** `parts.map((part) => parseFloat(part.trim())).filter(Number.isFinite)`. */
  function FiniteParts(parts: seq<string>, parseFloat: string -> JsNumber): (r: seq<real>)
    ensures |r| <= |parts|
  {
    Finites(Parsed(parts, parseFloat))
  }

  /**
   * `parseRgbTriplet(colorValue)`; `None` for a value that is not a string.
   * `parseFloat` stands for `Number.parseFloat`.
   */
  function ParseRgbTriplet(colorValue: Option<string>, parseFloat: string -> JsNumber): (r: Option<Triplet>)
    ensures colorValue.None? ==> r.None?
  {
    if colorValue.None? then None
    else
      var value := Trim(colorValue.value);
      var hexMatch := HexMatch(value);
      if hexMatch.Some? then Some(Channels(HexValue(Expand(hexMatch.value))))
      else
        var rgbMatch := RgbMatch(value);
        if rgbMatch.None? then None
        else
          var parts := FiniteParts(Split(rgbMatch.value, {','}), parseFloat);
          if |parts| < 3 then None else Some(Triplet(parts[0], parts[1], parts[2]))
  }

  /** Six hex digits split into three bytes. */
  lemma ChannelsOfBytes(a: nat, b: nat, c: nat)
    requires a < 256 && b < 256 && c < 256
    ensures Channels(a * 65536 + b * 256 + c) == Triplet(a as real, b as real, c as real)
  {
    var v := a * 65536 + b * 256 + c;
    assert 0 <= b * 256 + c < 65536;
    assert v == a * 65536 + (b * 256 + c);
    assert v / 65536 == a && a % 256 == a;
    assert v == (a * 256 + b) * 256 + c;
    assert v / 256 == a * 256 + b;
    assert (a * 256 + b) % 256 == b;
    assert v % 256 == c;
  }

  /** The value of six hex digits, two by two. */
  lemma HexValueOfSix(h: string)
    requires |h| == 6 && AllHex(h)
    ensures HexValue(h) ==
      (16 * HexDigit(h[0]) + HexDigit(h[1])) * 65536
      + (16 * HexDigit(h[2]) + HexDigit(h[3])) * 256
      + (16 * HexDigit(h[4]) + HexDigit(h[5]))
  {
    var d0, d1, d2, d3, d4, d5 := HexDigit(h[0]), HexDigit(h[1]), HexDigit(h[2]), HexDigit(h[3]), HexDigit(h[4]), HexDigit(h[5]);
    assert h[..1][..0] == [];
    assert HexValue(h[..1]) == d0;
    assert h[..2][..1] == h[..1];
    assert HexValue(h[..2]) == d0 * 16 + d1;
    assert h[..3][..2] == h[..2];
    assert HexValue(h[..3]) == d0 * 256 + d1 * 16 + d2;
    assert h[..4][..3] == h[..3];
    assert HexValue(h[..4]) == d0 * 4096 + d1 * 256 + d2 * 16 + d3;
    assert h[..5][..4] == h[..4];
    assert HexValue(h[..5]) == d0 * 65536 + d1 * 4096 + d2 * 256 + d3 * 16 + d4;
    assert h[..6][..5] == h[..5] && h[..6] == h;
  }

  /** The hex value of a pair of digits. */
  function Byte(hi: char, lo: char): (b: nat)
    requires IsHexDigit(hi) && IsHexDigit(lo)
    ensures b < 256
  {
    16 * HexDigit(hi) + HexDigit(lo)
  }

  /** `#rrggbb` gives its three digit pairs, surrounding whitespace aside. */
  lemma SixDigitForm(s: string, parseFloat: string -> JsNumber)
    requires |Trim(s)| == 7 && Trim(s)[0] == '#' && AllHex(Trim(s)[1..])
    ensures var h := Trim(s)[1..];
      ParseRgbTriplet(Some(s), parseFloat) == Some(Triplet(Byte(h[0], h[1]) as real, Byte(h[2], h[3]) as real, Byte(h[4], h[5]) as real))
  {
    var h := Trim(s)[1..];
    assert HexMatch(Trim(s)) == Some(h) && Expand(h) == h;
    assert ParseRgbTriplet(Some(s), parseFloat) == Some(Channels(HexValue(h)));
    HexValueOfSix(h);
    var a, b, c := Byte(h[0], h[1]), Byte(h[2], h[3]), Byte(h[4], h[5]);
    assert HexValue(h) == a * 65536 + b * 256 + c;
    ChannelsOfBytes(a, b, c);
  }

  /** `#rgb` doubles every digit: each channel is 17 times its digit. */
  lemma ThreeDigitForm(s: string, parseFloat: string -> JsNumber)
    requires |Trim(s)| == 4 && Trim(s)[0] == '#' && AllHex(Trim(s)[1..])
    ensures var h := Trim(s)[1..];
      ParseRgbTriplet(Some(s), parseFloat) == Some(Triplet((17 * HexDigit(h[0])) as real, (17 * HexDigit(h[1])) as real, (17 * HexDigit(h[2])) as real))
  {
    var h := Trim(s)[1..];
    assert HexMatch(Trim(s)) == Some(h);
    var e := Expand(h);
    HexValueOfSix(e);
    ChannelsOfBytes(17 * HexDigit(h[0]), 17 * HexDigit(h[1]), 17 * HexDigit(h[2]));
  }

  /** Every hex colour gives three whole numbers in [0, 255]. */
  lemma HexInRange(s: string, parseFloat: string -> JsNumber)
    requires HexMatch(Trim(s)).Some?
    ensures var r := ParseRgbTriplet(Some(s), parseFloat);
      r.Some? && 0.0 <= r.value.red <= 255.0 && 0.0 <= r.value.green <= 255.0 && 0.0 <= r.value.blue <= 255.0
      && r.value.red == r.value.red.Floor as real && r.value.green == r.value.green.Floor as real
      && r.value.blue == r.value.blue.Floor as real
  {
  }

  /**
   * `rgb(...)` / `rgba(...)`: `null` unless at least three comma-separated
   * parts parse as finite numbers; otherwise the first three of those.
   */
  lemma RgbForm(s: string, parseFloat: string -> JsNumber)
    requires HexMatch(Trim(s)).None? && RgbMatch(Trim(s)).Some?
    ensures var parts := FiniteParts(Split(RgbMatch(Trim(s)).value, {','}), parseFloat);
      var r := ParseRgbTriplet(Some(s), parseFloat);
      (|parts| < 3 <==> r.None?)
      && (|parts| >= 3 ==> r == Some(Triplet(parts[0], parts[1], parts[2])))
  {
  }

  /** Any other text is `null`. */
  lemma OtherTextIsNull(s: string, parseFloat: string -> JsNumber)
    requires HexMatch(Trim(s)).None? && RgbMatch(Trim(s)).None?
    ensures ParseRgbTriplet(Some(s), parseFloat).None?
  {
  }

  /** Every value kept is that of a finite number of the input. */
  lemma {:induction false} FinitesFrom(ns: seq<JsNumber>, k: nat)
    requires k < |Finites(ns)|
    ensures exists j :: 0 <= j < |ns| && ns[j] == Finite(Finites(ns)[k])
    decreases |ns|
  {
    var head := if ns[0].Finite? then [ns[0].value] else [];
    assert Finites(ns) == head + Finites(ns[1..]);
    if k >= |head| {
      FinitesFrom(ns[1..], k - |head|);
      var j :| 0 <= j < |ns[1..]| && ns[1..][j] == Finite(Finites(ns[1..])[k - |head|]);
      assert ns[j + 1] == Finite(Finites(ns)[k]);
    } else {
      assert ns[0] == Finite(Finites(ns)[k]);
    }
  }

  /** Every finite number of the input is kept. */
  lemma {:induction false} FinitesHas(ns: seq<JsNumber>, j: nat)
    requires j < |ns| && ns[j].Finite?
    ensures ns[j].value in Finites(ns)
    decreases |ns|
  {
    var head := if ns[0].Finite? then [ns[0].value] else [];
    assert Finites(ns) == head + Finites(ns[1..]);
    if j > 0 {
      FinitesHas(ns[1..], j - 1);
      assert ns[1..][j - 1] == ns[j];
    }
  }

  /** A finite part is exactly the parse of some trimmed part that is finite. */
  lemma FinitePartsMember(parts: seq<string>, parseFloat: string -> JsNumber, x: real)
    ensures x in FiniteParts(parts, parseFloat) <==> exists j :: 0 <= j < |parts| && parseFloat(Trim(parts[j])) == Finite(x)
  {
    var ns := Parsed(parts, parseFloat);
    if x in FiniteParts(parts, parseFloat) {
      var k :| 0 <= k < |Finites(ns)| && Finites(ns)[k] == x;
      FinitesFrom(ns, k);
    }
    if exists j :: 0 <= j < |parts| && parseFloat(Trim(parts[j])) == Finite(x) {
      var j :| 0 <= j < |parts| && parseFloat(Trim(parts[j])) == Finite(x);
      FinitesHas(ns, j);
    }
  }
}
