/**
 * The print variant's inversion (`invert_all_hex_colors`): every string of
 * the document that parses as a colour is rewritten with each channel
 * complemented, its alpha kept, in the canonical lowercase long form.
 */
module ThemeInvert {
  import opened Wrappers
  import opened Text
  import opened HexColor
  import opened Toml

  /** `!c` on a byte. */
  function InvertChannel(c: u8): (r: u8)
    ensures r == 255 - c
  {
    var x := ByteOf(c);
    InvertBits(x);
    (!x) as int
  }

  lemma InvertBits(x: bv8)
    ensures (!x) as int == 255 - x as int
  {
    assert !x == 0xFF - x;
  }

  function InvertRgb(c: Rgb): (r: Rgb)
    ensures r == Rgb(255 - c.r, 255 - c.g, 255 - c.b)
  {
    Rgb(InvertChannel(c.r), InvertChannel(c.g), InvertChannel(c.b))
  }

  /** Complementing twice gives the colour back. */
  lemma InvertRgbInvolutive(c: Rgb)
    ensures InvertRgb(InvertRgb(c)) == c
  {
  }

  /** The closure the walk applies: a colour is complemented, any other string kept. */
  function InvertString(s: string): (r: string)
    ensures ParseHexRgbaU8(s).None? ==> r == s
    ensures ParseHexRgbaU8(s).Some? ==>
      ParseHexRgbaU8(r) == Some((InvertRgb(ParseHexRgbaU8(s).value.0), ParseHexRgbaU8(s).value.1))
    ensures ParseHexRgbaU8(s).Some? ==>
      r == FormatHex(InvertRgb(ParseHexRgbaU8(s).value.0), ParseHexRgbaU8(s).value.1)
  {
    match ParseHexRgbaU8(s)
    case None => s
    case Some((rgb, a)) =>
      ParseFormat(InvertRgb(rgb), a);
      FormatHex(InvertRgb(rgb), a)
  }

  /**
   * Inverting twice gives the canonical form of a colour: the same channels
   * and alpha, written in lowercase long form (so `#FFF` comes back as
   * `#ffffff`); a string that is already canonical comes back unchanged.
   */
  lemma InvertStringTwice(s: string)
    requires ParseHexRgbaU8(s).Some?
    ensures InvertString(InvertString(s)) == FormatHex(ParseHexRgbaU8(s).value.0, ParseHexRgbaU8(s).value.1)
    ensures |s| in {7, 9} && Lower(s) == s ==> InvertString(InvertString(s)) == s
  {
    InvertRgbInvolutive(ParseHexRgbaU8(s).value.0);
    if |s| in {7, 9} {
      FormatParse(s);
    }
  }

  /** `invert_all_hex_colors`. */
  function InvertAll(v: Value): Value
  {
    MapStrings(v, InvertString)
  }

  /** A string the inversion leaves as it is: not a colour, or a colour in canonical form. */
  predicate InvertStable(s: string)
  {
    ParseHexRgbaU8(s).None? || (|s| in {7, 9} && Lower(s) == s)
  }

  /** On a document whose colours are all canonical, inverting twice changes nothing. */
  lemma InvertAllTwice(v: Value)
    requires forall s :: s in Strings(v) ==> InvertStable(s)
    ensures InvertAll(InvertAll(v)) == v
  {
    var g := s => InvertString(InvertString(s));
    MapStringsCompose(v, InvertString, InvertString, g);
    forall s | s in Strings(v) ensures g(s) == s {
      StableTwice(s);
    }
    MapStringsFixed(v, g);
  }

  lemma StableTwice(s: string)
    requires InvertStable(s)
    ensures InvertString(InvertString(s)) == s
  {
    if ParseHexRgbaU8(s).Some? {
      InvertStringTwice(s);
    }
  }

  /** A string that does not start with `#` is never a colour, so the walk keeps it. */
  lemma InvertKeepsText(s: string)
    requires s == [] || s[0] != '#'
    ensures InvertString(s) == s
  {
  }
}
