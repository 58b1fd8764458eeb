/**
 * The contrast chooser: picks black or white text for a background given as
 * a hexadecimal colour string. The weights are the luma weights of ITU-R
 * Recommendation BT.601; the result is black when the weighted luma,
 * scaled to [0, 1], exceeds one half.
 */
module Contrast {
  import opened Wrappers
  import opened JsString

  const Black := "#000000"
  const White := "#ffffff"

  /** (0.299 r + 0.587 g + 0.114 b) / 255, evaluated exactly; three bytes give a value in [0, 1]. */
  function Luminance(r: int, g: int, b: int): (l: real)
    ensures 0 <= r <= 255 && 0 <= g <= 255 && 0 <= b <= 255 ==> 0.0 <= l <= 1.0
  {
    (0.299 * r as real + 0.587 * g as real + 0.114 * b as real) / 255.0
  }

  /**
   * A channel read from at most two characters is NaN or lies in -15..255:
   * two digits reach at most `ff`, and a sign leaves one digit for `-f`.
   */
  predicate ChannelRange(c: Option<int>) {
    c.Some? ==> -15 <= c.value <= 255
  }

  lemma ShortSliceInRange(x: string)
    requires |x| <= 2
    ensures ChannelRange(ParseInt16(x))
  {
    if ParseInt16(x).Some? {
      Pow16Monotonic(|x|, 2);
      Pow16Monotonic(|x| - 1, 1);
      assert Pow16(2) == 256 && Pow16(1) == 16;
    }
  }

  /** The three channels read from a colour string; `None` is NaN. */
  function Channels(hex: string): (rgb: (Option<int>, Option<int>, Option<int>))
    ensures ChannelRange(rgb.0) && ChannelRange(rgb.1) && ChannelRange(rgb.2)
  {
    var h := RemoveFirst(hex, "#");
    var (x, y, z) := (Substr(h, 0, 2), Substr(h, 2, 2), Substr(h, 4, 2));
    ShortSliceInRange(x);
    ShortSliceInRange(y);
    ShortSliceInRange(z);
    (ParseInt16(x), ParseInt16(y), ParseInt16(z))
  }

  /**
   * The text colour for background `hex`. `None` stands for any falsy
   * argument that is not a string (`undefined`, `null`); a truthy argument
   * that is not a string makes the source throw and is handled by the caller.
   * A NaN channel makes the comparison false, hence white.
   */
  function ContrastColor(hex: Option<string>): (c: string)
    ensures c == Black || c == White
    ensures hex == None || hex == Some("") ==> c == White
  {
    if hex.None? || hex.value == "" then White
    else
      match Channels(hex.value)
      case (Some(r), Some(g), Some(b)) => if Luminance(r, g, b) > 0.5 then Black else White
      case _ => White
  }

  /** The luminance test is exactly the integer relation 299 r + 587 g + 114 b > 127500. */
  lemma LuminanceThreshold(r: int, g: int, b: int)
    ensures Luminance(r, g, b) > 0.5 <==> 299 * r + 587 * g + 114 * b > 127500
  {
  }

  /** The byte spelled by the two hexadecimal digits of `d` at `k` and `k + 1`. */
  function Channel(d: string, k: nat): (v: nat)
    requires k + 1 < |d| && IsHexDigit(d[k]) && IsHexDigit(d[k + 1])
    ensures v < 256
  {
    16 * HexDigitValue(d[k]) + HexDigitValue(d[k + 1])
  }

  /** A string of hexadecimal digits has no `#`, so `replace('#', '')` leaves it alone. */
  lemma NoHashInHexDigits(d: string)
    requires AllHexDigits(d)
    ensures RemoveFirst(d, "#") == d
  {
    forall j: nat | j < |d|
      ensures !OccursAt(d, "#", j)
    {
      assert IsHexDigit(d[j]);
    }
    assert IndexOf(d, "#") == None;
  }

  /** A leading `#` is the first one, so `replace('#', '')` drops exactly it. */
  lemma LeadingHashRemoved(d: string)
    ensures RemoveFirst("#" + d, "#") == d
  {
    assert OccursAt("#" + d, "#", 0);
    assert ("#" + d)[1..] == d;
  }

  /** The slice at `k` of a string whose characters `k` and `k + 1` are hexadecimal digits. */
  lemma SliceChannel(d: string, k: nat)
    requires k + 1 < |d| && IsHexDigit(d[k]) && IsHexDigit(d[k + 1])
    ensures ParseInt16(Substr(d, k, 2)) == Some(Channel(d, k))
  {
    assert Substr(d, k, 2) == [d[k], d[k + 1]];
    ParseTwoHexDigits(d[k], d[k + 1]);
  }

  /** The channels of six hexadecimal digits, with or without a leading `#`. */
  lemma ChannelsOfSixDigits(d: string)
    requires |d| == 6 && AllHexDigits(d)
    ensures Channels(d) == Channels("#" + d)
    ensures Channels(d) == (Some(Channel(d, 0)), Some(Channel(d, 2)), Some(Channel(d, 4)))
  {
    NoHashInHexDigits(d);
    LeadingHashRemoved(d);
    SliceChannel(d, 0);
    SliceChannel(d, 2);
    SliceChannel(d, 4);
  }

  /** Once all three channels are numbers, the colour depends on their luminance only. */
  lemma ColourOfChannels(hex: string, r: int, g: int, b: int)
    requires hex != "" && Channels(hex) == (Some(r), Some(g), Some(b))
    ensures ContrastColor(Some(hex)) == Black <==> 299 * r + 587 * g + 114 * b > 127500
  {
    LuminanceThreshold(r, g, b);
  }

  /**
   * For six hexadecimal digits `rrggbb`, with or without `#`, the text is
   * black exactly when 299 r + 587 g + 114 b > 127500.
   */
  lemma SixDigitColour(d: string)
    requires |d| == 6 && AllHexDigits(d)
    ensures ContrastColor(Some(d)) == ContrastColor(Some("#" + d))
    ensures ContrastColor(Some("#" + d)) == Black <==>
      299 * Channel(d, 0) + 587 * Channel(d, 2) + 114 * Channel(d, 4) > 127500
  {
    ChannelsOfSixDigits(d);
    var r, g, b := Channel(d, 0), Channel(d, 2), Channel(d, 4);
    ColourOfChannels(d, r, g, b);
    ColourOfChannels("#" + d, r, g, b);
  }

  /** The grey levels a byte can take: `xyxyxy` reads (v, v, v) with v = 16 x + y. */
  lemma GreyColour(x: char, y: char)
    requires IsHexDigit(x) && IsHexDigit(y)
    ensures ContrastColor(Some("#" + [x, y, x, y, x, y])) == Black <==> 16 * HexDigitValue(x) + HexDigitValue(y) > 127
  {
    var d := [x, y, x, y, x, y];
    SixDigitColour(d);
  }

  /** A white background gets black text. */
  lemma WhiteBackground()
    ensures ContrastColor(Some("#ffffff")) == Black
  {
    assert "#ffffff" == "#" + ['f', 'f', 'f', 'f', 'f', 'f'];
    GreyColour('f', 'f');
  }

  /** A black background gets white text. */
  lemma BlackBackground()
    ensures ContrastColor(Some("#000000")) == White
  {
    assert "#000000" == "#" + ['0', '0', '0', '0', '0', '0'];
    GreyColour('0', '0');
  }

  /** Grey 80 (luma 128000) is above the threshold: black text. */
  lemma GreyAboveThreshold()
    ensures ContrastColor(Some("#808080")) == Black
  {
    assert "#808080" == "#" + ['8', '0', '8', '0', '8', '0'];
    GreyColour('8', '0');
  }

  /** Grey 7f (luma 127000) is below the threshold: white text. */
  lemma GreyBelowThreshold()
    ensures ContrastColor(Some("#7f7f7f")) == White
  {
    assert "#7f7f7f" == "#" + ['7', 'f', '7', 'f', '7', 'f'];
    GreyColour('7', 'f');
  }

  /** The profile page's default background gets black text. */
  lemma DefaultBackgroundColour()
    ensures ContrastColor(Some("#f5f5f5")) == Black
  {
    assert "#f5f5f5" == "#" + ['f', '5', 'f', '5', 'f', '5'];
    GreyColour('f', '5');
  }

  /** A channel that is NaN makes the comparison false: white, whatever the other channels are. */
  lemma AnyNaNChannelGivesWhite(hex: string)
    requires Channels(hex).0.None? || Channels(hex).1.None? || Channels(hex).2.None?
    ensures ContrastColor(Some(hex)) == White
  {
  }

  /** After the first `#` is removed, four characters or fewer leave the blue channel NaN: white. */
  lemma ShortColourIsWhite(hex: string)
    requires |RemoveFirst(hex, "#")| <= 4
    ensures ContrastColor(Some(hex)) == White
  {
    NoLeadingDigitIsNaN("");
  }

  /**
   * Only the first `#` is removed: a second one lands in the red slice,
   * which `parseInt` reads as NaN, so the text is white although `ffffff`
   * alone would give black.
   */
  lemma SecondHashStays()
    ensures ContrastColor(Some("##ffffff")) == White
  {
    LeadingHashRemoved("#ffffff");
    assert "##ffffff" == "#" + "#ffffff";
    assert Substr("#ffffff", 0, 2) == "#f";
    NoLeadingDigitIsNaN("#f");
  }

  /** A `#` after hexadecimal digits is the first one, so `replace('#', '')` drops exactly it. */
  lemma HashAfterDigitsRemoved(d1: string, d2: string)
    requires AllHexDigits(d1)
    ensures RemoveFirst(d1 + "#" + d2, "#") == d1 + d2
  {
    var s := d1 + "#" + d2;
    forall j: nat | j < |d1|
      ensures !OccursAt(s, "#", j)
    {
      assert s[j..j + 1][0] == s[j] == d1[j];
      assert IsHexDigit(d1[j]);
    }
    assert OccursAt(s, "#", |d1|);
    assert s[..|d1|] + s[|d1| + 1..] == d1 + d2;
  }

  /**
   * The first `#` is removed wherever it is, not only at the start: six
   * hexadecimal digits with a `#` inserted anywhere give the same colour as
   * the digits alone (`ff#ffff` is read as `ffffff`).
   */
  lemma HashAnywhereIsIgnored(d: string, k: nat)
    requires |d| == 6 && AllHexDigits(d) && k <= 6
    ensures ContrastColor(Some(d[..k] + "#" + d[k..])) == ContrastColor(Some(d))
  {
    var hex := d[..k] + "#" + d[k..];
    assert AllHexDigits(d[..k]);
    HashAfterDigitsRemoved(d[..k], d[k..]);
    assert d[..k] + d[k..] == d;
    NoHashInHexDigits(d);
    assert Channels(hex) == Channels(d);
  }

  /**
   * A channel that parses to NaN makes the text white: `0x` has no digit
   * after the prefix (with `00` in its place the text would be black, as
   * `ZeroRedCyan` shows).
   */
  lemma NaNChannelGivesWhite()
    ensures ContrastColor(Some("#0xffff")) == White
  {
    LeadingHashRemoved("0xffff");
    assert "#0xffff" == "#" + "0xffff";
    assert Substr("0xffff", 0, 2) == "0x";
    HexPrefixAloneIsNaN('x');
  }

  /** Cyan, with a red channel of zero, is light enough for black text. */
  lemma ZeroRedCyan()
    ensures ContrastColor(Some("#00ffff")) == Black
  {
    assert "#00ffff" == "#" + "00ffff";
    assert AllHexDigits("00ffff");
    SixDigitColour("00ffff");
  }

  /**
   * `substr` clips instead of failing: five digits `rrggb` leave a one-digit
   * blue channel, which `parseInt` reads as that digit's value (so `#fffff`
   * is read as (255, 255, 15)).
   */
  lemma FiveDigitsClipBlue(d: string)
    requires |d| == 5 && AllHexDigits(d)
    ensures ContrastColor(Some("#" + d)) == Black <==>
      299 * Channel(d, 0) + 587 * Channel(d, 2) + 114 * HexDigitValue(d[4]) > 127500
  {
    LeadingHashRemoved(d);
    SliceChannel(d, 0);
    SliceChannel(d, 2);
    assert Substr(d, 4, 2) == [d[4]];
    ParseOneHexDigit(d[4]);
    ColourOfChannels("#" + d, Channel(d, 0), Channel(d, 2), HexDigitValue(d[4]));
  }
}
