/**
 * `hexToRgb`: a colour string such as "#FFD700" or "#fd0" read as three
 * channels with `parseInt(..., 16)`, each channel falling back to the gold
 * default (255, 215, 0) on its own when it does not parse.
 */
module Colors {
  import opened Wrappers
  import opened JsText

  datatype Rgb = Rgb(r: int, g: int, b: int)

  /** The per-channel fallbacks: gold, #FFD700. */
  const DefaultRed := 255
  const DefaultGreen := 215
  const DefaultBlue := 0

  predicate IsHexDigit(c: char)
  {
    ('0' <= c <= '9') || ('a' <= c <= 'f') || ('A' <= c <= 'F')
  }

  function HexDigitValue(c: char): (v: nat)
    requires IsHexDigit(c)
    ensures v < 16
  {
    if '0' <= c <= '9' then (c as int - '0' as int) as nat
    else if 'a' <= c <= 'f' then (c as int - 'a' as int + 10) as nat
    else (c as int - 'A' as int + 10) as nat
  }

  /** How many hex digits `s` starts with. */
  function HexRun(s: string): (k: nat)
    ensures k <= |s|
    ensures forall i :: 0 <= i < k ==> IsHexDigit(s[i])
    ensures k < |s| ==> !IsHexDigit(s[k])
  {
    if |s| > 0 && IsHexDigit(s[0]) then 1 + HexRun(s[1..]) else 0
  }

  function Pow16(n: nat): (p: nat)
    ensures p >= 1
  {
    if n == 0 then 1 else 16 * Pow16(n - 1)
  }

  /** The value of a run of hex digits, most significant first. */
  function HexValue(ds: string): (v: nat)
    requires forall i :: 0 <= i < |ds| ==> IsHexDigit(ds[i])
    ensures v < Pow16(|ds|)
  {
    if |ds| == 0 then 0 else 16 * HexValue(ds[..|ds| - 1]) + HexDigitValue(ds[|ds| - 1])
  }

  /** The longest run of hex digits at the front of `w`, read as a number; `None` when there is none. */
  function LeadingHex(w: string): (v: Option<nat>)
    ensures v.Some? ==> v.value < Pow16(HexRun(w))
  {
    var k := HexRun(w);
    if k == 0 then None else Some(HexValue(w[..k]))
  }

  /** Drops one leading '+' or '-'. */
  function DropSign(t: string): (u: string)
    ensures u == t || (|t| > 0 && (t[0] == '+' || t[0] == '-') && u == t[1..])
  {
    if |t| > 0 && (t[0] == '+' || t[0] == '-') then t[1..] else t
  }

  /** Drops a leading "0x" or "0X". */
  function DropRadixPrefix(u: string): (w: string)
    ensures w == u || (|u| >= 2 && u[0] == '0' && (u[1] == 'x' || u[1] == 'X') && w == u[2..])
  {
    if |u| >= 2 && u[0] == '0' && (u[1] == 'x' || u[1] == 'X') then u[2..] else u
  }

  /**
   * `parseInt(s, 16)`; `None` stands for NaN. Leading whitespace is skipped,
   * one sign is read, a "0x"/"0X" prefix is dropped, and then the longest run
   * of hex digits is the number; no digits at all is NaN.
   */
  function ParseHex(s: string): Option<int>
  {
    var t := TrimStart(s);
    var negative := |t| > 0 && t[0] == '-';
    match LeadingHex(DropRadixPrefix(DropSign(t)))
    case None => None
    case Some(v) => Some(if negative then -(v as int) else v as int)
  }

  /** `s.substring(i, j)` for `0 <= i <= j`: the indices are clamped to the length. */
  function Substring(s: string, i: nat, j: nat): (r: string)
    requires i <= j
    ensures |r| <= j - i
    ensures |r| == (if j < |s| then j else |s|) - (if i < |s| then i else |s|)
    ensures forall k :: 0 <= k < |r| ==> r[k] == s[(if i < |s| then i else |s|) + k]
    ensures forall c :: c in r ==> c in s
  {
    var a := if i < |s| then i else |s|;
    var b := if j < |s| then j else |s|;
    s[a..b]
  }

  /** `h.split('').map(ch => ch + ch).join('')`. */
  function Doubled(h: string): (r: string)
    ensures |r| == 2 * |h|
    ensures forall i :: 0 <= i < |h| ==> r[2 * i] == h[i] && r[2 * i + 1] == h[i]
  {
    if |h| == 0 then "" else [h[0], h[0]] + Doubled(h[1..])
  }

  /** `String(hex || '').trim().replace('#', '')`, expanded when three characters remain. */
  function Channels(hex: string): (h: string)
    ensures forall c :: c in h ==> c in hex
  {
    var t := Trim(hex);
    assert forall c :: c in t ==> c in hex;
    var n := ReplaceFirst(t, '#');
    if |n| == 3 then DoubledChars(n); Doubled(n) else n
  }

  lemma DoubledChars(h: string)
    ensures forall c :: c in Doubled(h) ==> c in h
  {
    var d := Doubled(h);
    forall c | c in d ensures c in h {
      var i :| 0 <= i < |d| && d[i] == c;
      assert d[i] == h[i / 2];
    }
  }

  function OrDefault(v: Option<int>, default: int): int
  {
    if v.Some? then v.value else default
  }

  /** The three `parseInt` reads of the channel text, each with its fallback. */
  function ReadChannels(h: string): Rgb
  {
    Rgb(OrDefault(ParseHex(Substring(h, 0, 2)), DefaultRed),
        OrDefault(ParseHex(Substring(h, 2, 4)), DefaultGreen),
        OrDefault(ParseHex(Substring(h, 4, 6)), DefaultBlue))
  }

  /** `hexToRgb(hex)`. */
  function HexToRgb(hex: string): Rgb
  {
    ReadChannels(Channels(hex))
  }

  // ---------------------------------------------------------------------

  lemma HexRunOfDigits(s: string)
    requires forall i :: 0 <= i < |s| ==> IsHexDigit(s[i])
    ensures HexRun(s) == |s|
  {
  }

  /** Text made of hex digits only is what `parseInt` reads digits from, untouched. */
  lemma ParseHexOfDigits(s: string)
    requires |s| > 0 && forall i :: 0 <= i < |s| ==> IsHexDigit(s[i])
    ensures ParseHex(s) == Some(HexValue(s))
  {
    assert !IsJsWhitespace(s[0]);
    assert TrimStart(s) == s;
    assert DropSign(s) == s;
    assert DropRadixPrefix(s) == s by {
      if |s| >= 2 { assert IsHexDigit(s[1]); }
    }
    HexRunOfDigits(s);
    assert s[..|s|] == s;
  }

  /** Two hex digits parse to the byte they spell. */
  lemma ParseHexPair(s: string)
    requires |s| == 2 && IsHexDigit(s[0]) && IsHexDigit(s[1])
    ensures ParseHex(s).Some? && ParseHex(s).value == 16 * HexDigitValue(s[0]) + HexDigitValue(s[1])
  {
    ParseHexOfDigits(s);
    HexValuePair(s);
  }

  lemma HexValuePair(s: string)
    requires |s| == 2 && IsHexDigit(s[0]) && IsHexDigit(s[1])
    ensures HexValue(s) == 16 * HexDigitValue(s[0]) + HexDigitValue(s[1])
  {
    assert s[..1][..0] == [];
    assert s[..1] == [s[0]];
  }

  /** With a leading '#' and no trailing space, the text after the '#' is what gets read ... */
  lemma HashPrefixed(d: string)
    requires |d| > 0 && !IsJsWhitespace(d[|d| - 1])
    ensures ReplaceFirst(Trim("#" + d), '#') == d
  {
    var s := "#" + d;
    assert s[|s| - 1] == d[|d| - 1];
    TrimIdentity(s);
  }

  /** ... as it stands when it is not three characters long ... */
  lemma HashPrefixedLong(d: string)
    requires |d| > 0 && !IsJsWhitespace(d[|d| - 1]) && |d| != 3
    ensures Channels("#" + d) == d
  {
    HashPrefixed(d);
  }

  /** ... and doubled when it is. */
  lemma HashPrefixedShort(s: string)
    requires |s| == 3 && !IsJsWhitespace(s[2])
    ensures Channels("#" + s) == Doubled(s)
  {
    HashPrefixed(s);
  }

  lemma DoubledThree(s: string)
    requires |s| == 3
    ensures Doubled(s) == [s[0], s[0], s[1], s[1], s[2], s[2]]
  {
    var d := Doubled(s);
    assert d[0] == s[0] && d[1] == s[0];
    assert d[2] == s[1] && d[3] == s[1];
    assert d[4] == s[2] && d[5] == s[2];
  }

  /** The two hex digits at `i` and `i + 1` read as one channel. */
  lemma ReadPairAt(d: string, i: nat)
    requires i + 1 < |d| && IsHexDigit(d[i]) && IsHexDigit(d[i + 1])
    ensures ParseHex(Substring(d, i, i + 2)).Some?
    ensures ParseHex(Substring(d, i, i + 2)).value == 16 * HexDigitValue(d[i]) + HexDigitValue(d[i + 1])
  {
    var p := Substring(d, i, i + 2);
    assert p == d[i..i + 2];
    ParseHexPair(p);
  }

  /** Six hex digits read as the three bytes they spell. */
  lemma ReadSixDigits(d: string)
    requires |d| == 6 && forall i :: 0 <= i < 6 ==> IsHexDigit(d[i])
    ensures ReadChannels(d).r == 16 * HexDigitValue(d[0]) + HexDigitValue(d[1])
    ensures ReadChannels(d).g == 16 * HexDigitValue(d[2]) + HexDigitValue(d[3])
    ensures ReadChannels(d).b == 16 * HexDigitValue(d[4]) + HexDigitValue(d[5])
  {
    ReadPairAt(d, 0);
    ReadPairAt(d, 2);
    ReadPairAt(d, 4);
  }

  lemma ReadAfterHash(d: string)
    requires |d| == 6 && forall i :: 0 <= i < 6 ==> IsHexDigit(d[i])
    ensures HexToRgb("#" + d) == ReadChannels(d)
  {
    assert IsHexDigit(d[5]);
    HashPrefixedLong(d);
  }

  /** A well-formed six-digit colour gives the three bytes it spells, each in 0..255. */
  lemma SixDigitColour(d: string)
    requires |d| == 6 && forall i :: 0 <= i < 6 ==> IsHexDigit(d[i])
    ensures HexToRgb("#" + d).r == 16 * HexDigitValue(d[0]) + HexDigitValue(d[1])
    ensures HexToRgb("#" + d).g == 16 * HexDigitValue(d[2]) + HexDigitValue(d[3])
    ensures HexToRgb("#" + d).b == 16 * HexDigitValue(d[4]) + HexDigitValue(d[5])
    ensures 0 <= HexToRgb("#" + d).r <= 255 && 0 <= HexToRgb("#" + d).g <= 255 && 0 <= HexToRgb("#" + d).b <= 255
  {
    ReadAfterHash(d);
    ReadSixDigits(d);
  }

  /** Text with the same channel string reads as the same colour. */
  lemma SameChannels(x: string, y: string)
    requires Channels(x) == Channels(y)
    ensures HexToRgb(x) == HexToRgb(y)
  {
  }

  /** The channel string of `#abc` is `aabbcc`. */
  lemma ShortChannels(s: string)
    requires |s| == 3 && !IsJsWhitespace(s[2])
    ensures Channels("#" + s) == [s[0], s[0], s[1], s[1], s[2], s[2]]
  {
    HashPrefixedShort(s);
    DoubledThree(s);
  }

  /** The short form `#abc` reads as `#aabbcc`. */
  lemma ShortFormExpands(s: string)
    requires |s| == 3 && IsHexDigit(s[0]) && IsHexDigit(s[1]) && IsHexDigit(s[2])
    ensures HexToRgb("#" + s) == HexToRgb("#" + [s[0], s[0], s[1], s[1], s[2], s[2]])
  {
    var d := [s[0], s[0], s[1], s[1], s[2], s[2]];
    ShortChannels(s);
    assert d[5] == s[2];
    HashPrefixedLong(d);
    SameChannels("#" + s, "#" + d);
  }

  /** A doubled digit reads as 17 times its value. */
  lemma ReadDoubledPair(d: string, i: nat)
    requires i + 1 < |d| && IsHexDigit(d[i]) && d[i + 1] == d[i]
    ensures ParseHex(Substring(d, i, i + 2)).Some?
    ensures ParseHex(Substring(d, i, i + 2)).value == 17 * HexDigitValue(d[i])
  {
    ReadPairAt(d, i);
  }

  /** Doubled digits read as 17 times their value. */
  lemma ReadDoubled(d: string)
    requires |d| == 6 && IsHexDigit(d[0]) && IsHexDigit(d[2]) && IsHexDigit(d[4])
    requires d[1] == d[0] && d[3] == d[2] && d[5] == d[4]
    ensures ReadChannels(d).r == 17 * HexDigitValue(d[0])
    ensures ReadChannels(d).g == 17 * HexDigitValue(d[2])
    ensures ReadChannels(d).b == 17 * HexDigitValue(d[4])
  {
    ReadDoubledPair(d, 0);
    ReadDoubledPair(d, 2);
    ReadDoubledPair(d, 4);
  }

  /** Each digit of the short form counts for itself and its copy: 17 times its value. */
  lemma ShortFormChannels(s: string)
    requires |s| == 3 && IsHexDigit(s[0]) && IsHexDigit(s[1]) && IsHexDigit(s[2])
    ensures HexToRgb("#" + s).r == 17 * HexDigitValue(s[0])
    ensures HexToRgb("#" + s).g == 17 * HexDigitValue(s[1])
    ensures HexToRgb("#" + s).b == 17 * HexDigitValue(s[2])
  {
    ShortChannels(s);
    ReadDoubled(Channels("#" + s));
  }

  /** Text without a single hex digit never parses, so every channel falls back. */
  lemma NoDigitsGivesDefault(hex: string)
    requires forall i :: 0 <= i < |hex| ==> !IsHexDigit(hex[i])
    ensures HexToRgb(hex) == Rgb(DefaultRed, DefaultGreen, DefaultBlue)
  {
    var h := Channels(hex);
    forall i, j | i <= j ensures ParseHex(Substring(h, i, j)).None? {
      ParseHexNone(Substring(h, i, j));
    }
  }

  lemma ParseHexNone(s: string)
    requires forall c :: c in s ==> !IsHexDigit(c)
    ensures ParseHex(s).None?
  {
    var t := TrimStart(s);
    assert forall c :: c in t ==> c in s;
    var w := DropRadixPrefix(DropSign(t));
    assert forall c :: c in w ==> c in s;
    if |w| > 0 {
      assert w[0] in w;
    }
  }

  /** No input gives a channel outside -255..255, and without a '-' every channel is a byte. */
  lemma ChannelBounds(hex: string)
    ensures -255 <= HexToRgb(hex).r <= 255 && -255 <= HexToRgb(hex).g <= 255 && -255 <= HexToRgb(hex).b <= 255
    ensures '-' !in hex ==> 0 <= HexToRgb(hex).r <= 255 && 0 <= HexToRgb(hex).g <= 255 && 0 <= HexToRgb(hex).b <= 255
  {
    var h := Channels(hex);
    ParseHexShort(Substring(h, 0, 2));
    ParseHexShort(Substring(h, 2, 4));
    ParseHexShort(Substring(h, 4, 6));
  }

  lemma Pow16Monotone(k: nat, n: nat)
    requires k <= n
    ensures Pow16(k) <= Pow16(n)
  {
    if k < n {
      Pow16Monotone(k, n - 1);
    }
  }

  /** `parseInt` of `n` characters stays below 16^n in size, and is negative only after a '-'. */
  lemma ParseHexBound(s: string)
    ensures ParseHex(s).Some? ==> -(Pow16(|s|) as int) < ParseHex(s).value < Pow16(|s|)
    ensures ParseHex(s).Some? && '-' !in s ==> ParseHex(s).value >= 0
  {
    var t := TrimStart(s);
    var w := DropRadixPrefix(DropSign(t));
    assert |w| <= |s|;
    Pow16Monotone(HexRun(w), |s|);
    if |t| > 0 && t[0] == '-' {
      assert t[0] in s;
    }
  }

  /** `parseInt` of at most two characters is at most one byte in size. */
  lemma ParseHexShort(s: string)
    requires |s| <= 2
    ensures ParseHex(s).Some? ==> -255 <= ParseHex(s).value <= 255
    ensures ParseHex(s).Some? && '-' !in s ==> ParseHex(s).value >= 0
  {
    ParseHexBound(s);
    Pow16Monotone(|s|, 2);
    assert Pow16(2) == 256;
  }

  /** Each channel falls back on its own: "#12" keeps its red byte and defaults green and blue. */
  lemma PartialColour()
    ensures HexToRgb("#12") == Rgb(0x12, DefaultGreen, DefaultBlue)
  {
    assert "#12" == "#" + "12";
    HashPrefixedLong("12");
    assert Substring("12", 0, 2) == "12";
    ParseHexPair("12");
    ParseHexNone(Substring("12", 2, 4));
    ParseHexNone(Substring("12", 4, 6));
  }


}
