/**
 * The monochrome pass of the theme compiler: every string of the document
 * that parses as one of the accent colours is replaced by the shade of the
 * selected ramp nearest to it in luminance, keeping its alpha; then the
 * foregrounds of italic and bold token styles are forced to two fixed
 * shades.
 */
module ThemeMono {
  import opened Wrappers
  import opened Text
  import opened HexColor
  import opened Toml
  import Ramp

  /** The string function `apply_monochrome` walks over the document. */
  function MonoString(s: string, ramp: Ramp.MonoRamp, isPrint: bool, lum: Rgb -> real,
                      nearest: (seq<real>, real) -> nat): (r: string)
    requires Ramp.NearestInRange(nearest)
    requires 0 < |ramp.luminances| == |ramp.rgbs|
    ensures ParseHexRgbaU8(s).None? ==> r == s
    ensures ParseHexRgbaU8(s).Some? && !Ramp.IsMonochromeCandidate(ParseHexRgbaU8(s).value.0, isPrint) ==> r == s
    ensures ParseHexRgbaU8(s).Some? && Ramp.IsMonochromeCandidate(ParseHexRgbaU8(s).value.0, isPrint) ==>
      var (rgb, alpha) := ParseHexRgbaU8(s).value;
      ParseHexRgbaU8(r) == Some((Ramp.NearestRgb(ramp, lum(rgb), nearest), alpha))
    ensures ParseHexRgbaU8(s).Some? && Ramp.IsMonochromeCandidate(ParseHexRgbaU8(s).value.0, isPrint) ==>
      var (rgb, alpha) := ParseHexRgbaU8(s).value;
      var pick := Ramp.NearestRgb(ramp, lum(rgb), nearest);
      r == if pick != rgb then FormatHex(pick, alpha) else s
  {
    match ParseHexRgbaU8(s)
    case None => s
    case Some((rgb, alpha)) =>
      if !Ramp.IsMonochromeCandidate(rgb, isPrint) then s
      else
        var pick := Ramp.NearestRgb(ramp, lum(rgb), nearest);
        ParseFormat(pick, alpha);
        if pick != rgb then FormatHex(pick, alpha) else s
  }

  /** `apply_monochrome`: the walk of the whole document with that function. */
  function ApplyMonochrome(v: Value, ramp: Ramp.MonoRamp, isPrint: bool, lum: Rgb -> real,
                           nearest: (seq<real>, real) -> nat): Value
    requires Ramp.NearestInRange(nearest)
    requires 0 < |ramp.luminances| == |ramp.rgbs|
  {
    MapStrings(v, s => MonoString(s, ramp, isPrint, lum, nearest))
  }

  /**
   * The walk keeps the tree's shape and touches only accent strings: a string
   * that changes was a candidate colour and now spells the ramp shade picked
   * for it, with its alpha kept.
   */
  lemma ApplyMonochromeEffect(v: Value, ramp: Ramp.MonoRamp, isPrint: bool, lum: Rgb -> real,
                              nearest: (seq<real>, real) -> nat)
    requires Ramp.NearestInRange(nearest)
    requires 0 < |ramp.luminances| == |ramp.rgbs|
    ensures var r := ApplyMonochrome(v, ramp, isPrint, lum, nearest);
      && Shape(r) == Shape(v)
      && |Strings(r)| == |Strings(v)|
      && forall i :: 0 <= i < |Strings(v)| && Strings(r)[i] != Strings(v)[i] ==>
        && ParseHexRgbaU8(Strings(v)[i]).Some?
        && Ramp.IsMonochromeCandidate(ParseHexRgbaU8(Strings(v)[i]).value.0, isPrint)
        && ParseHexRgbaU8(Strings(r)[i]).Some?
        && ParseHexRgbaU8(Strings(r)[i]).value.0 in ramp.rgbs
        && ParseHexRgbaU8(Strings(r)[i]).value.1 == ParseHexRgbaU8(Strings(v)[i]).value.1
  {
    MapStringsWalk(v, s => MonoString(s, ramp, isPrint, lum, nearest));
  }

  /** The walk and the style overrides keep a table a table. */
  lemma PassKeepsTable(v: Value, ramp: Ramp.MonoRamp, isPrint: bool, lum: Rgb -> real,
                       nearest: (seq<real>, real) -> nat)
    requires Ramp.NearestInRange(nearest)
    requires 0 < |ramp.luminances| == |ramp.rgbs|
    requires v.Table?
    ensures StyleOverrides(ApplyMonochrome(v, ramp, isPrint, lum, nearest)).Table?
  {
  }

  /**
   * Colours whose channels lie within 0x20 of each other: every shade of
   * the ramps is one, no accent is.
   */
  predicate Grayish(c: Rgb)
  {
    -0x20 <= c.r - c.g <= 0x20 && -0x20 <= c.g - c.b <= 0x20
  }

  lemma ShadesGrayish()
    ensures forall k :: 0 <= k < |Ramp.EXTRAS_RGBS| ==> Grayish(Ramp.EXTRAS_RGBS[k])
    ensures forall k :: 0 <= k < |Ramp.GRAY_RAMP_RGBS| ==> Grayish(Ramp.GRAY_RAMP_RGBS[k])
    ensures forall k :: 0 <= k < |Ramp.COOL_GRAY_RAMP_RGBS| ==> Grayish(Ramp.COOL_GRAY_RAMP_RGBS[k])
    ensures forall k :: 0 <= k < |Ramp.WARM_GRAY_RAMP_RGBS| ==> Grayish(Ramp.WARM_GRAY_RAMP_RGBS[k])
  {
  }

  /** No candidate colour is grayish, printing or not. */
  lemma CandidatesNotGrayish(c: Rgb, isPrint: bool)
    requires Ramp.IsMonochromeCandidate(c, isPrint)
    ensures !Grayish(c)
  {
    Ramp.CandidateIsExact(c, isPrint);
    assert forall k :: 0 <= k < |Ramp.ACCENT_RGBS| ==> !Grayish(Ramp.ACCENT_RGBS[k]);
  }

  /** Every shade a family's ramp is built from is grayish. */
  lemma ChainGrayish(f: Ramp.Family)
    ensures Ramp.AllParse(Ramp.MONO_RAMP_EXTRAS + Ramp.BaseOf(f))
    ensures forall c :: c in Ramp.Rgbs(Ramp.MONO_RAMP_EXTRAS + Ramp.BaseOf(f)) ==> Grayish(c)
  {
    ShadesGrayish();
    var shades := match f
      case Gray => Ramp.GRAY_RAMP_RGBS
      case CoolGray => Ramp.COOL_GRAY_RAMP_RGBS
      case WarmGray => Ramp.WARM_GRAY_RAMP_RGBS;
    match f
    case Gray => Ramp.GrayChain();
    case CoolGray => Ramp.CoolGrayChain();
    case WarmGray => Ramp.WarmGrayChain();
    assert Ramp.Rgbs(Ramp.MONO_RAMP_EXTRAS + Ramp.BaseOf(f)) == Ramp.EXTRAS_RGBS + shades;
    forall c | c in Ramp.EXTRAS_RGBS + shades ensures Grayish(c) {
      var k :| 0 <= k < |Ramp.EXTRAS_RGBS + shades| && (Ramp.EXTRAS_RGBS + shades)[k] == c;
      if k < |Ramp.EXTRAS_RGBS| {
        assert c == Ramp.EXTRAS_RGBS[k];
      } else {
        assert c == shades[k - |Ramp.EXTRAS_RGBS|];
      }
    }
  }

  /** The shade picked from any family's ramp is never itself a candidate. */
  lemma PickNotCandidate(family: string, lum: Rgb -> real, target: real,
                         nearest: (seq<real>, real) -> nat, isPrint: bool)
    requires Ramp.NearestInRange(nearest)
    ensures var ramp := Ramp.SelectMonochromeRamp(family, lum);
      && 0 < |ramp.luminances| == |ramp.rgbs|
      && !Ramp.IsMonochromeCandidate(Ramp.NearestRgb(ramp, target, nearest), isPrint)
  {
    Ramp.NearestIsAShade(family, lum, target, nearest);
    var c := Ramp.NearestRgb(Ramp.SelectMonochromeRamp(family, lum), target, nearest);
    ChainGrayish(Ramp.FamilyOf(family));
    if Ramp.IsMonochromeCandidate(c, isPrint) {
      CandidatesNotGrayish(c, isPrint);
    }
  }

  /** On a family's ramp, replacing accents a second time changes nothing. */
  lemma MonoStringIdempotent(s: string, family: string, isPrint: bool, lum: Rgb -> real,
                             nearest: (seq<real>, real) -> nat)
    requires Ramp.NearestInRange(nearest)
    ensures var ramp := Ramp.SelectMonochromeRamp(family, lum);
      && 0 < |ramp.luminances| == |ramp.rgbs|
      && var r := MonoString(s, ramp, isPrint, lum, nearest);
        MonoString(r, ramp, isPrint, lum, nearest) == r
  {
    var ramp := Ramp.SelectMonochromeRamp(family, lum);
    Ramp.SelectedRampWellFormed(family, lum);
    var p := ParseHexRgbaU8(s);
    if p.Some? && Ramp.IsMonochromeCandidate(p.value.0, isPrint) {
      PickNotCandidate(family, lum, lum(p.value.0), nearest, isPrint);
    }
  }

  /** The whole pass, run twice with the same family, is the pass run once. */
  lemma ApplyMonochromeIdempotent(v: Value, family: string, isPrint: bool, lum: Rgb -> real,
                                  nearest: (seq<real>, real) -> nat)
    requires Ramp.NearestInRange(nearest)
    ensures var ramp := Ramp.SelectMonochromeRamp(family, lum);
      && 0 < |ramp.luminances| == |ramp.rgbs|
      && var once := ApplyMonochrome(v, ramp, isPrint, lum, nearest);
        ApplyMonochrome(once, ramp, isPrint, lum, nearest) == once
  {
    var ramp := Ramp.SelectMonochromeRamp(family, lum);
    Ramp.SelectedRampWellFormed(family, lum);
    var f := s => MonoString(s, ramp, isPrint, lum, nearest);
    forall s ensures f(f(s)) == f(s) {
      MonoStringIdempotent(s, family, isPrint, lum, nearest);
    }
    MapStringsIdempotent(v, f);
  }

  /** The foreground forced on italic styles. */
  const ITALIC_FG: string := "#f2f4f8"
  /** The foreground forced on styles that are just bold. */
  const BOLD_FG: string := "#ffffff"

  /** The style names italic in either of its two spellings. */
  predicate HasItalic(fontStyle: string)
  {
    Contains(fontStyle, "italic") || Contains(fontStyle, "Italic")
  }

  /** Trimmed, the style is the word bold in any case. */
  predicate IsBoldOnly(fontStyle: string)
  {
    EqIgnoreAsciiCase(Trim(fontStyle), "bold")
  }

  /** The foreground a font style forces, italic taking precedence over bold. */
  function StyleForeground(fontStyle: string): (fg: Option<string>)
    ensures fg.Some? <==> HasItalic(fontStyle) || IsBoldOnly(fontStyle)
    ensures fg.Some? ==> fg.value in {ITALIC_FG, BOLD_FG}
    ensures HasItalic(fontStyle) ==> fg == Some(ITALIC_FG)
    ensures !HasItalic(fontStyle) && IsBoldOnly(fontStyle) ==> fg == Some(BOLD_FG)
  {
    if HasItalic(fontStyle) then Some(ITALIC_FG)
    else if IsBoldOnly(fontStyle) then Some(BOLD_FG)
    else None
  }

  /** One entry of `tokenColors`: its `settings.foreground` set when its `settings.fontStyle` asks for it. */
  function OverrideItem(item: Value): Value
  {
    match Lookup(item, "settings")
    case Some(Table(settings)) =>
      (match Get(settings, "fontStyle")
       case Some(Str(fs)) =>
         (match StyleForeground(fs)
          case Some(fg) => Put(item, "settings", Table(Insert(settings, "foreground", Str(fg))))
          case None => item)
       case _ => item)
    case _ => item
  }

  /** `apply_monochrome_style_overrides` on the document, stated on values. */
  function StyleOverrides(root: Value): Value
  {
    match Lookup(root, "tokenColors")
    case Some(Arr(items)) =>
      Put(root, "tokenColors", Arr(seq(|items|, i requires 0 <= i < |items| => OverrideItem(items[i]))))
    case _ => root
  }

  /** `apply_monochrome_style_overrides`: the loop over the entries of `tokenColors`. */
  method ApplyMonochromeStyleOverrides(root: Value) returns (r: Value)
    ensures r == StyleOverrides(root)
  {
    var tc := Lookup(root, "tokenColors");
    if !(tc.Some? && tc.value.Arr?) {
      return root;
    }
    var items := tc.value.items;
    var out := items;
    for i := 0 to |items|
      invariant |out| == |items|
      invariant forall k :: 0 <= k < i ==> out[k] == OverrideItem(items[k])
      invariant forall k :: i <= k < |items| ==> out[k] == items[k]
    {
      out := out[i := OverrideItem(items[i])];
    }
    assert out == seq(|items|, i requires 0 <= i < |items| => OverrideItem(items[i]));
    r := Put(root, "tokenColors", Arr(out));
  }

  /**
   * An entry whose settings carry a string `fontStyle` that asks for a
   * foreground gets that foreground and keeps every other setting and every
   * other key; any other entry is unchanged.
   */
  lemma OverrideItemEffect(item: Value)
    ensures var r := OverrideItem(item);
      match Lookup(item, "settings")
      case Some(Table(settings)) =>
        (match Get(settings, "fontStyle")
         case Some(Str(fs)) =>
           if StyleForeground(fs).Some? then
             && Lookup(r, "settings").Some? && Lookup(r, "settings").value.Table?
             && Get(Lookup(r, "settings").value.entries, "foreground") == Some(Str(StyleForeground(fs).value))
             && (forall k :: k != "foreground" ==> Get(Lookup(r, "settings").value.entries, k) == Get(settings, k))
             && (forall k :: k != "settings" ==> Lookup(r, k) == Lookup(item, k))
           else r == item
         case _ => r == item)
      case _ => r == item
  {
    var st := Lookup(item, "settings");
    if st.Some? && st.value.Table? && Get(st.value.entries, "fontStyle").Some? {
      var settings := st.value.entries;
      var fsv := Get(settings, "fontStyle").value;
      if fsv.Str? && StyleForeground(fsv.s).Some? {
        OverrideApplies(item, settings, fsv.s, StyleForeground(fsv.s).value);
      }
    }
  }

  lemma OverrideApplies(item: Value, settings: Entries, fs: string, fg: string)
    requires Lookup(item, "settings") == Some(Table(settings))
    requires Get(settings, "fontStyle") == Some(Str(fs)) && StyleForeground(fs) == Some(fg)
    ensures var r := OverrideItem(item);
      && Lookup(r, "settings") == Some(Table(Insert(settings, "foreground", Str(fg))))
      && Get(Insert(settings, "foreground", Str(fg)), "foreground") == Some(Str(fg))
      && (forall k :: k != "foreground" ==> Get(Insert(settings, "foreground", Str(fg)), k) == Get(settings, k))
      && (forall k :: k != "settings" ==> Lookup(r, k) == Lookup(item, k))
  {
    var ns := Table(Insert(settings, "foreground", Str(fg)));
    assert OverrideItem(item) == Put(item, "settings", ns);
    InsertEffect(settings, "foreground", Str(fg));
    InsertEffect(item.entries, "settings", ns);
  }

  /** Italic in either spelling wins over bold. */
  lemma ItalicExamples()
    ensures StyleForeground("bold italic") == Some(ITALIC_FG)
    ensures StyleForeground("Italic") == Some(ITALIC_FG)
  {
    assert OccursAt("bold italic", "italic", 5);
    assert OccursAt("Italic", "Italic", 0);
  }

  /** Bold is matched in any case after trimming. */
  lemma BoldExample()
    ensures StyleForeground(" Bold ") == Some(BOLD_FG)
  {
    BoldNotItalic();
    BoldOnlyPadded();
  }

  lemma BoldNotItalic()
    ensures !HasItalic(" Bold ")
  {
    NoLetterT(" Bold ");
  }

  lemma BoldOnlyPadded()
    ensures IsBoldOnly(" Bold ")
  {
    BoldTrimmed();
    BoldIgnoringCase();
  }

  lemma BoldIgnoringCase()
    ensures EqIgnoreAsciiCase("Bold", "bold")
  {
    assert Lower("Bold") == "bold";
  }

  lemma BoldTrimmed()
    ensures Trim(" Bold ") == "Bold"
  {
    assert " Bold " == " " + "Bold ";
    TrimStartPadded(" ", "Bold ");
    assert "Bold " == "Bold" + " ";
    TrimEndPadded("Bold", " ");
  }

  /** Italic is matched only in its two spellings: upper case forces nothing. */
  lemma UpperItalicExample()
    ensures StyleForeground("ITALIC") == None
  {
    UpperNotItalic();
    UpperNotBold();
  }

  lemma UpperNotItalic()
    ensures !HasItalic("ITALIC")
  {
    FindSameLength6("ITALIC", "italic");
    FindSameLength6("ITALIC", "Italic");
  }

  lemma UpperNotBold()
    ensures !IsBoldOnly("ITALIC")
  {
    assert [] + "ITALIC" == "ITALIC";
    TrimPadded([], "ITALIC");
    assert |Lower("ITALIC")| != |Lower("bold")|;
  }

  /** Bold together with another style forces nothing. */
  lemma BoldUnderlineExample()
    ensures StyleForeground("bold underline") == None
  {
    NoLetterT("bold underline");
    assert Trim("bold underline") == "bold underline";
    assert |Lower("bold underline")| != |"bold"|;
  }

  lemma FindSameLength6(s: string, pat: string)
    requires |s| == |pat| == 6 && s != pat
    ensures !Contains(s, pat)
  {
    assert s[0..6] == s;
    assert forall j :: 0 < j ==> !OccursAt(s, pat, j);
  }

  /** A string without the letter `t` contains neither spelling of italic. */
  lemma NoLetterT(s: string)
    requires forall k :: 0 <= k < |s| ==> s[k] != 't'
    ensures !HasItalic(s)
  {
    forall j: nat ensures !OccursAt(s, "italic", j) && !OccursAt(s, "Italic", j) {
      if j + 6 <= |s| {
        assert s[j..j + 6][1] == s[j + 1];
      }
    }
  }
}
