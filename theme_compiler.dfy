/**
 * `main` of the theme compiler on an already parsed document: the OLED
 * replacements, the monochrome pass and its style overrides, the
 * compatibility colours, the theme name and, for print, the inversion and
 * the light type, in that order. Reading the input, parsing TOML and writing
 * JSON lie outside the model.
 */
module ThemeCompiler {
  import opened Wrappers
  import opened HexColor
  import opened Toml
  import opened ThemeOptions
  import Ramp
  import ThemeOled
  import ThemeMono
  import ThemeCompat
  import ThemeInvert

  /** `compute_theme_name`. */
  function ThemeName(oled: bool, compat: bool, monochrome: bool, monoFamily: Option<string>): (name: Option<string>)
    ensures name.None? <==> !monochrome && !oled && !compat
  {
    if monochrome then
      var base := if oled then "Oxocarbon OLED Monochrom" else "Oxocarbon Monochrom";
      var name := base + NameTag(if monoFamily.Some? then monoFamily.value else "gray");
      Some(if compat then name + " (compatibility)" else name)
    else if oled && compat then Some("Oxocarbon OLED (compatibility)")
    else if oled then Some("Oxocarbon OLED")
    else if compat then Some("Oxocarbon (compatibility)")
    else None
  }

  /** The match in `compute_theme_name`: what follows the base of a monochrome name. */
  function NameTag(family: string): string
  {
    if family == "coolgray" || family == "cool-gray" || family == "cool" then " (Cool Gray)"
    else if family == "warmgray" || family == "warm-gray" || family == "warm" then " (Warm Gray)"
    else ""
  }

  /** The family tag of a monochrome name. */
  function FamilyTag(f: Ramp.Family): string
  {
    match f
    case Gray => ""
    case CoolGray => " (Cool Gray)"
    case WarmGray => " (Warm Gray)"
  }

  /** The name assembled from its parts, one per option. */
  function NameFromParts(oled: bool, compat: bool, monochrome: bool, f: Ramp.Family): string
  {
    "Oxocarbon"
      + (if oled then " OLED" else "")
      + (if monochrome then " Monochrom" + FamilyTag(f) else "")
      + (if compat then " (compatibility)" else "")
  }

  /**
   * Every name is `Oxocarbon`, then ` OLED` when OLED is on, then
   * ` Monochrom` and the tag of the family whose ramp the monochrome pass
   * uses, then ` (compatibility)` when that is on: the name and the ramp
   * agree on the family.
   */
  lemma ThemeNameParts(oled: bool, compat: bool, monochrome: bool, monoFamily: Option<string>)
    requires monochrome || oled || compat
    ensures ThemeName(oled, compat, monochrome, monoFamily) ==
      Some(NameFromParts(oled, compat, monochrome,
                         Ramp.FamilyOf(if monoFamily.Some? then monoFamily.value else "gray")))
  {
    if monochrome {
      MonochromeNameParts(oled, compat, if monoFamily.Some? then monoFamily.value else "gray");
    } else {
      assert "Oxocarbon OLED (compatibility)" == "Oxocarbon" + " OLED" + "" + " (compatibility)";
      assert "Oxocarbon OLED" == "Oxocarbon" + " OLED" + "" + "";
      assert "Oxocarbon (compatibility)" == "Oxocarbon" + "" + "" + " (compatibility)";
    }
  }

  lemma MonochromeNameParts(oled: bool, compat: bool, family: string)
    ensures ThemeName(oled, compat, true, Some(family)) == Some(NameFromParts(oled, compat, true, Ramp.FamilyOf(family)))
  {
    TagAgrees(family);
    BaseSplits(oled);
    Regroup("Oxocarbon" + (if oled then " OLED" else ""), " Monochrom", NameTag(family),
            if compat then " (compatibility)" else "");
  }

  lemma TagAgrees(family: string)
    ensures NameTag(family) == FamilyTag(Ramp.FamilyOf(family))
  {
  }

  lemma BaseSplits(oled: bool)
    ensures (if oled then "Oxocarbon OLED Monochrom" else "Oxocarbon Monochrom") ==
      "Oxocarbon" + (if oled then " OLED" else "") + " Monochrom"
  {
  }

  lemma Regroup(head: string, mid: string, tag: string, tail: string)
    ensures head + (mid + tag) + tail == head + mid + tag + tail
    ensures tail == "" ==> head + mid + tag + tail == head + mid + tag
  {
  }

  /** A name never starts with `#`, so the print inversion leaves it alone. */
  lemma NameIsNotAColour(oled: bool, compat: bool, monochrome: bool, monoFamily: Option<string>)
    requires monochrome || oled || compat
    ensures var name := ThemeName(oled, compat, monochrome, monoFamily).value;
      name != [] && name[0] == 'O' && ThemeInvert.InvertString(name) == name
  {
    ThemeNameParts(oled, compat, monochrome, monoFamily);
    var name := ThemeName(oled, compat, monochrome, monoFamily).value;
    ThemeInvert.InvertKeepsText(name);
  }

  /** The family the monochrome pass uses: the one given, or `gray`. */
  function FamilyName(o: Options): string
  {
    if o.monoFamily.Some? then o.monoFamily.value else "gray"
  }

  function AfterOled(o: Options, root: Value): (r: Value)
    ensures root.Table? ==> r.Table?
  {
    if IsOled(o) then ThemeOled.OledPass(root) else root
  }

  function AfterMonochrome(o: Options, v: Value, lum: Rgb -> real, nearest: (seq<real>, real) -> nat): (r: Value)
    requires Ramp.NearestInRange(nearest)
  {
    if IsMonochrome(o) then
      var ramp := Ramp.SelectMonochromeRamp(FamilyName(o), lum);
      Ramp.SelectedRampWellFormed(FamilyName(o), lum);
      ThemeMono.StyleOverrides(ThemeMono.ApplyMonochrome(v, ramp, IsPrint(o), lum, nearest))
    else v
  }

  function AfterCompat(o: Options, v: Value): Value
  {
    if IsCompat(o) then ThemeCompat.CompatPass(v, IsOled(o)) else v
  }

  function AfterName(o: Options, v: Value): Value
  {
    match ThemeName(IsOled(o), IsCompat(o), IsMonochrome(o), o.monoFamily)
    case Some(name) => Put(v, "name", Str(name))
    case None => v
  }

  function AfterPrint(o: Options, v: Value): Value
  {
    if IsPrint(o) then Put(ThemeInvert.InvertAll(v), "type", Str("light")) else v
  }

  /**
   * The document `main` writes out for a parsed document, with the
   * luminance and the nearest-index search as parameters.
   */
  function Compile(o: Options, root: Value, lum: Rgb -> real, nearest: (seq<real>, real) -> nat): Value
    requires root.Table?
    requires Ramp.NearestInRange(nearest)
  {
    AfterPrint(o, AfterName(o, AfterCompat(o, AfterMonochrome(o, AfterOled(o, root), lum, nearest))))
  }

  /** With no switch set the document comes out as it went in. */
  lemma CompileDefault(o: Options, root: Value, lum: Rgb -> real, nearest: (seq<real>, real) -> nat)
    requires root.Table? && Ramp.NearestInRange(nearest)
    requires !IsOled(o) && !IsMonochrome(o) && !IsCompat(o) && !IsPrint(o)
    ensures Compile(o, root, lum, nearest) == root
  {
  }

  /** Every stage keeps the document a table. */
  lemma StagesKeepTable(o: Options, v: Value, lum: Rgb -> real, nearest: (seq<real>, real) -> nat)
    requires v.Table? && Ramp.NearestInRange(nearest)
    ensures AfterOled(o, v).Table?
    ensures AfterMonochrome(o, v, lum, nearest).Table?
    ensures AfterCompat(o, v).Table?
    ensures AfterName(o, v).Table?
    ensures AfterPrint(o, v).Table?
  {
    MonochromeKeepsTable(o, v, lum, nearest);
    PrintKeepsTable(o, v);
  }

  lemma MonochromeKeepsTable(o: Options, v: Value, lum: Rgb -> real, nearest: (seq<real>, real) -> nat)
    requires v.Table? && Ramp.NearestInRange(nearest)
    ensures AfterMonochrome(o, v, lum, nearest).Table?
  {
    if IsMonochrome(o) {
      var ramp := Ramp.SelectMonochromeRamp(FamilyName(o), lum);
      Ramp.SelectedRampWellFormed(FamilyName(o), lum);
      ThemeMono.PassKeepsTable(v, ramp, IsPrint(o), lum, nearest);
    }
  }

  lemma PrintKeepsTable(o: Options, v: Value)
    requires v.Table?
    ensures AfterPrint(o, v).Table?
  {
    if IsPrint(o) {
      MapStringsWalk(v, ThemeInvert.InvertString);
    }
  }

  /** The written document carries the computed name, when there is one. */
  lemma CompileName(o: Options, root: Value, lum: Rgb -> real, nearest: (seq<real>, real) -> nat)
    requires root.Table? && Ramp.NearestInRange(nearest)
    requires IsOled(o) || IsMonochrome(o) || IsCompat(o)
    ensures Lookup(Compile(o, root, lum, nearest), "name") ==
      Some(Str(ThemeName(IsOled(o), IsCompat(o), IsMonochrome(o), o.monoFamily).value))
  {
    var name := ThemeName(IsOled(o), IsCompat(o), IsMonochrome(o), o.monoFamily).value;
    var v1 := AfterOled(o, root);
    StagesKeepTable(o, v1, lum, nearest);
    var v2 := AfterMonochrome(o, v1, lum, nearest);
    StagesKeepTable(o, v2, lum, nearest);
    var v3 := AfterCompat(o, v2);
    var v4 := AfterName(o, v3);
    InsertGet(v3.entries, "name", Str(name), "name");
    NameIsNotAColour(IsOled(o), IsCompat(o), IsMonochrome(o), o.monoFamily);
    PrintKeepsName(o, v4, name);
  }

  /** Inverting the colours leaves a name that is not a colour where it was. */
  lemma PrintKeepsName(o: Options, v: Value, name: string)
    requires v.Table? && Lookup(v, "name") == Some(Str(name))
    requires ThemeInvert.InvertString(name) == name
    ensures Lookup(AfterPrint(o, v), "name") == Some(Str(name))
  {
    if IsPrint(o) {
      var inv := ThemeInvert.InvertAll(v);
      LookupMapStrings(v, ThemeInvert.InvertString, "name");
      PrintKeepsTable(o, v);
      MapStringsWalk(v, ThemeInvert.InvertString);
      InsertGet(inv.entries, "type", Str("light"), "name");
    }
  }

  /** The print variant is always of type `light`. */
  lemma CompilePrintType(o: Options, root: Value, lum: Rgb -> real, nearest: (seq<real>, real) -> nat)
    requires root.Table? && Ramp.NearestInRange(nearest)
    requires IsPrint(o)
    ensures Lookup(Compile(o, root, lum, nearest), "type") == Some(Str("light"))
  {
    var v1 := AfterOled(o, root);
    StagesKeepTable(o, v1, lum, nearest);
    var v2 := AfterMonochrome(o, v1, lum, nearest);
    StagesKeepTable(o, v2, lum, nearest);
    var v3 := AfterCompat(o, v2);
    StagesKeepTable(o, v3, lum, nearest);
    var v4 := AfterName(o, v3);
    StagesKeepTable(o, v4, lum, nearest);
    MapStringsWalk(v4, ThemeInvert.InvertString);
    var inv := ThemeInvert.InvertAll(v4);
    InsertGet(inv.entries, "type", Str("light"), "type");
  }
}
